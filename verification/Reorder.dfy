/** The reorder buffer: commits arrive in any order, the output is a gap-free prefix in SeqID order. */
module Reorder {
  import opened Operations

  /** The buffer's fields and what has gone through its channel. `accepted` is the history of commits;
      `taken` says that the head was removed from `pending` and its send has not happened (it is in
      progress, or was abandoned on cancellation). */
  datatype Rob = Rob(
    pending: map<nat, Operation>, nextExpected: nat, flushed: nat, total: nat, closed: bool,
    out: seq<Operation>, accepted: map<nat, Operation>, taken: bool)
  {
    predicate HeadReady() {
      nextExpected in pending
    }

    /** Store a committed operation. */
    function Accept(op: Operation): Rob {
      this.(pending := pending[op.seqId := op], accepted := accepted[op.seqId := op])
    }

    /** Remove the head from `pending`, about to send it. */
    function TakeHead(): Rob {
      this.(pending := pending - {nextExpected}, taken := true)
    }

    /** The consumer received the head. */
    function Deliver(op: Operation): Rob {
      this.(out := out + [op], nextExpected := nextExpected + 1, flushed := flushed + 1,
            closed := closed || flushed + 1 == total, taken := false)
    }

    /** Every committed operation is in exactly one place: sent, taken, or pending. */
    ghost predicate Consistent() {
      && |out| == nextExpected == flushed <= total
      && (forall k :: k in accepted ==> k < total && accepted[k].seqId == k)
      && (forall k :: 0 <= k < |out| ==> k in accepted && out[k] == accepted[k])
      && (forall k :: k in pending <==> k in accepted && nextExpected <= k && !(taken && k == nextExpected))
      && (forall k :: k in pending ==> pending[k] == accepted[k])
      && (taken ==> nextExpected in accepted)
      && (closed <==> flushed == total)
    }

    /** What a caller sees between commits when no send was ever abandoned: the output is exactly the
        longest gap-free run of committed operations, and the channel is closed exactly when it is complete. */
    ghost predicate InOrder() {
      && (forall k :: 0 <= k < |out| ==> k in accepted && out[k] == accepted[k])
      && |out| !in accepted
      && (forall k :: k in pending <==> k in accepted && |out| <= k)
      && (closed <==> |out| == total)
    }
  }

  /** The buffer after Drain(ctx, total). */
  function Drained(total: nat): Rob {
    Rob(map[], 0, 0, total, total == 0, [], map[], false)
  }

  /** Send the head as long as it is there. */
  function Flush(r: Rob): Rob
    decreases |r.pending|
  {
    if r.HeadReady() then
      assert |r.TakeHead().pending| < |r.pending| by { RemovingShrinks(r.pending, r.nextExpected); }
      Flush(r.TakeHead().Deliver(r.pending[r.nextExpected]))
    else r
  }

  lemma RemovingShrinks(m: map<nat, Operation>, k: nat)
    requires k in m
    ensures |m - {k}| < |m|
  {
    assert (m - {k}).Keys == m.Keys - {k};
    assert |m.Keys - {k}| < |m.Keys|;
  }

  /** A Commit that nothing cancels. */
  function CommitOne(r: Rob, op: Operation): Rob {
    Flush(r.Accept(op))
  }

  function CommitAll(r: Rob, ops: seq<Operation>): Rob {
    if ops == [] then r else CommitOne(CommitAll(r, ops[..|ops|-1]), ops[|ops|-1])
  }

  lemma AcceptKeeps(r: Rob, op: Operation)
    requires r.Consistent() && op.seqId < r.total && op.seqId !in r.accepted
    ensures r.Accept(op).Consistent()
  {
  }

  lemma TakeKeeps(r: Rob)
    requires r.Consistent() && r.HeadReady()
    ensures r.TakeHead().Consistent() && !r.taken && !r.closed
    ensures r.pending[r.nextExpected] == r.accepted[r.nextExpected]
  {
  }

  lemma DeliverKeeps(r: Rob)
    requires r.Consistent() && r.taken
    ensures r.Deliver(r.accepted[r.nextExpected]).Consistent() && !r.closed
  {
  }

  lemma {:induction false} FlushSettles(r: Rob)
    requires r.Consistent()
    ensures var f := Flush(r);
            && f.Consistent() && !f.HeadReady()
            && f.accepted == r.accepted && f.total == r.total && f.taken == r.taken && r.out <= f.out
    decreases |r.pending|
  {
    if r.HeadReady() {
      TakeKeeps(r);
      DeliverKeeps(r.TakeHead());
      RemovingShrinks(r.pending, r.nextExpected);
      FlushSettles(r.TakeHead().Deliver(r.pending[r.nextExpected]));
    }
  }

  lemma SettledIsInOrder(r: Rob)
    requires r.Consistent() && !r.taken && !r.HeadReady()
    ensures r.InOrder()
  {
  }

  ghost predicate Distinct(ops: seq<Operation>) {
    forall a, b :: 0 <= a < b < |ops| ==> ops[a].seqId != ops[b].seqId
  }

  /** The commits of `ops`, by SeqID. */
  function Committed(ops: seq<Operation>): map<nat, Operation> {
    if ops == [] then map[] else Committed(ops[..|ops|-1])[ops[|ops|-1].seqId := ops[|ops|-1]]
  }

  lemma {:induction false} CommittedExactly(ops: seq<Operation>)
    requires Distinct(ops)
    ensures forall a :: 0 <= a < |ops| ==> ops[a].seqId in Committed(ops) && Committed(ops)[ops[a].seqId] == ops[a]
    ensures forall k :: k in Committed(ops) ==> exists a :: 0 <= a < |ops| && ops[a].seqId == k
  {
    if ops != [] {
      CommittedExactly(ops[..|ops|-1]);
      forall k | k in Committed(ops)
        ensures exists a :: 0 <= a < |ops| && ops[a].seqId == k
      {
        if k == ops[|ops|-1].seqId {
        } else {
          var a :| 0 <= a < |ops| - 1 && ops[..|ops|-1][a].seqId == k;
          assert ops[a].seqId == k;
        }
      }
    }
  }

  /** After any commits in any order the buffer holds exactly those commits, in order. */
  lemma {:induction false} CommitsStayInOrder(total: nat, ops: seq<Operation>)
    requires Distinct(ops) && forall a :: 0 <= a < |ops| ==> ops[a].seqId < total
    ensures var r := CommitAll(Drained(total), ops);
            && r.Consistent() && !r.taken && !r.HeadReady() && r.total == total && r.InOrder()
            && r.accepted == Committed(ops)
  {
    if ops != [] {
      var n := |ops| - 1;
      var before := CommitAll(Drained(total), ops[..n]);
      CommitsStayInOrder(total, ops[..n]);
      CommittedExactly(ops[..n]);
      assert ops[n].seqId !in before.accepted;
      CommitOneKeeps(before, ops[n]);
    }
  }

  lemma CommitOneKeeps(r: Rob, op: Operation)
    requires r.Consistent() && !r.taken && op.seqId < r.total && op.seqId !in r.accepted
    ensures var c := CommitOne(r, op);
            && c.Consistent() && !c.taken && !c.HeadReady() && c.total == r.total && c.InOrder()
            && c.accepted == r.accepted[op.seqId := op]
  {
    AcceptKeeps(r, op);
    FlushSettles(r.Accept(op));
    SettledIsInOrder(CommitOne(r, op));
  }

  /** Every permutation of the commits of a whole batch produces the batch in SeqID order and closes the channel. */
  lemma {:induction false} AnyOrderComesOutInOrder(total: nat, ops: seq<Operation>, batch: seq<Operation>)
    requires |batch| == total && forall k :: 0 <= k < total ==> batch[k].seqId == k
    requires multiset(ops) == multiset(batch)
    ensures CommitAll(Drained(total), ops).out == batch
    ensures CommitAll(Drained(total), ops).closed
  {
    PermutationIsDistinct(ops, batch);
    CommitsStayInOrder(total, ops);
    CommittedExactly(ops);
    var r := CommitAll(Drained(total), ops);
    forall k | 0 <= k < total
      ensures k in r.accepted && r.accepted[k] == batch[k]
    {
      assert batch[k] in multiset(ops);
      var a :| 0 <= a < |ops| && ops[a] == batch[k];
    }
    assert |r.out| == total;
  }

  lemma PermutationIsDistinct(ops: seq<Operation>, batch: seq<Operation>)
    requires forall k :: 0 <= k < |batch| ==> batch[k].seqId == k
    requires multiset(ops) == multiset(batch)
    ensures Distinct(ops)
    ensures forall a :: 0 <= a < |ops| ==> ops[a].seqId < |batch|
  {
    forall a | 0 <= a < |ops|
      ensures ops[a].seqId < |batch| && batch[ops[a].seqId] == ops[a]
    {
      assert ops[a] in multiset(batch);
    }
    forall a, b | 0 <= a < b < |ops| && ops[a].seqId == ops[b].seqId
      ensures false
    {
      TwiceCounts(ops, a, b);
      OnceCounts(batch, ops[a].seqId);
    }
  }

  lemma TwiceCounts(ops: seq<Operation>, a: nat, b: nat)
    requires a < b < |ops| && ops[a] == ops[b]
    ensures multiset(ops)[ops[a]] >= 2
  {
    assert ops == ops[..a] + [ops[a]] + ops[a+1..b] + [ops[b]] + ops[b+1..];
  }

  lemma OnceCounts(batch: seq<Operation>, k: nat)
    requires k < |batch| && forall i :: 0 <= i < |batch| ==> batch[i].seqId == i
    ensures multiset(batch)[batch[k]] == 1
  {
    assert batch == batch[..k] + [batch[k]] + batch[k+1..];
    assert batch[k] !in batch[..k] && batch[k] !in batch[k+1..];
  }

  // ----- the flush loop of one commit -----

  /** r is an intermediate state of the flush that follows `start`. */
  ghost predicate Reached(start: Rob, r: Rob) {
    && start.Consistent() && r.Consistent()
    && Flush(r) == Flush(start)
    && r.total == start.total && r.accepted == start.accepted && r.taken == start.taken
    && start.out <= r.out
    && (r.taken ==> r.out == start.out && r.closed == start.closed)
  }

  lemma CommitBegins(r: Rob, op: Operation)
    requires r.Consistent() && op.seqId < r.total && op.seqId !in r.accepted
    ensures Reached(r.Accept(op), r.Accept(op))
  {
    AcceptKeeps(r, op);
  }

  /** Sending the head continues the flush; abandoning it leaves a consistent buffer that is stuck for good. */
  lemma SendStep(start: Rob, r: Rob)
    requires Reached(start, r) && r.HeadReady()
    ensures !r.taken && |r.TakeHead().pending| < |r.pending|
    ensures Reached(start, r.TakeHead().Deliver(r.pending[r.nextExpected]))
    ensures r.TakeHead().Consistent() && !r.TakeHead().HeadReady() && !r.closed
  {
    TakeKeeps(r);
    RemovingShrinks(r.pending, r.nextExpected);
    DeliverKeeps(r.TakeHead());
  }

  lemma {:induction false} ReachedEnd(start: Rob, r: Rob)
    requires Reached(start, r) && !r.HeadReady()
    ensures r == Flush(start)
    ensures !r.taken ==> r.InOrder()
  {
    if !r.taken {
      SettledIsInOrder(r);
    }
  }

  /** A cancellation context: once done it stays done, and it may become done at any time. */
  class Context {
    var done: bool

    constructor ()
      ensures !done
    {
      done := false;
    }

    /** The two-way choice between sending and noticing cancellation. */
    method SelectSend() returns (sent: bool)
      modifies this
      ensures old(done) ==> done
      ensures !sent ==> done
    {
      if * {
        done := true;
      }
      if done {
        sent := *;
      } else {
        sent := true;
      }
    }
  }

  class InOrderReorderBuffer {
    var pending: map<nat, Operation>
    var nextExpected: nat
    var flushed: nat
    var total: nat
    var out: seq<Operation>   // everything sent on the output channel so far
    var closed: bool
    var ctx: Context
    ghost var accepted: map<nat, Operation>
    ghost var abandoned: bool

    ghost function View(): Rob
      reads this
    {
      Rob(pending, nextExpected, flushed, total, closed, out, accepted, abandoned)
    }

    /** Holds between calls once Drain has been called. */
    ghost predicate Valid()
      reads this
    {
      View().Consistent() && !View().HeadReady()
    }

    constructor ()
      ensures pending == map[] && nextExpected == 0 && flushed == 0 && total == 0 && out == [] && !closed
      ensures accepted == map[] && !abandoned && fresh(ctx) && !ctx.done
    {
      pending, nextExpected, flushed, total, out, closed := map[], 0, 0, 0, [], false;
      accepted, abandoned := map[], false;
      ctx := new Context();
    }

    method Drain(ctx: Context, total: nat)
      requires pending == map[] && nextExpected == 0 && flushed == 0 && out == [] && !closed
      requires accepted == map[] && !abandoned
      modifies this
      ensures Valid() && View() == Drained(total) && this.ctx == ctx
    {
      this.ctx := ctx;
      this.total := total;
      if total == 0 && !closed {
        closed := true;
      }
    }

    /** One commit. Uncancelled, it is CommitOne. Whatever happens, the output stays a gap-free prefix
        in SeqID order; once a send was abandoned nothing is emitted or closed any more. */
    method Commit(op: Operation)
      requires Valid() && op.seqId < total && op.seqId !in accepted
      modifies this, ctx
      ensures Valid() && total == old(total) && ctx == old(ctx) && (old(ctx.done) ==> ctx.done)
      ensures accepted == old(accepted)[op.seqId := op]
      ensures old(out) <= out
      ensures old(abandoned) ==> abandoned && out == old(out) && closed == old(closed)
      ensures abandoned && !old(abandoned) ==> ctx.done && !closed
      ensures !abandoned ==> View() == CommitOne(old(View()), op) && View().InOrder()
    {
      ghost var start := View().Accept(op);
      CommitBegins(View(), op);
      Store(op);
      while nextExpected in pending
        invariant Reached(start, View())
        invariant ctx == old(ctx) && (old(ctx.done) ==> ctx.done)
        decreases |pending|
      {
        ghost var r := View();
        SendStep(start, r);
        var sent := SendHead();
        if !sent {
          return;
        }
      }
      ReachedEnd(start, View());
    }

    /** Under the lock: store a committed operation. */
    method Store(op: Operation)
      modifies this
      ensures View() == old(View()).Accept(op) && ctx == old(ctx)
    {
      pending := pending[op.seqId := op];
      accepted := accepted[op.seqId := op];
    }

    /** Under the lock: remove the head from `pending`, about to send it. */
    method TakeHead() returns (head: Operation)
      requires nextExpected in pending
      modifies this
      ensures View() == old(View()).TakeHead() && ctx == old(ctx)
      ensures head == old(pending)[old(nextExpected)]
    {
      head := pending[nextExpected];
      pending := pending - {nextExpected};
      abandoned := true;
    }

    /** Under the lock: the consumer received the head. */
    method Deliver(head: Operation)
      modifies this
      ensures View() == old(View()).Deliver(head) && ctx == old(ctx)
    {
      out := out + [head];
      nextExpected := nextExpected + 1;
      flushed := flushed + 1;
      abandoned := false;
      if flushed == total && !closed {
        closed := true;
      }
    }

    /** One turn of the flush loop: remove the head from `pending`, then send it or notice cancellation. */
    method SendHead() returns (sent: bool)
      requires nextExpected in pending
      modifies this, ctx
      ensures ctx == old(ctx) && (old(ctx.done) ==> ctx.done) && (!sent ==> ctx.done)
      ensures var taken := old(View()).TakeHead();
              View() == if sent then taken.Deliver(old(pending)[old(nextExpected)]) else taken
    {
      var head := TakeHead();
      sent := ctx.SelectSend();
      if sent {
        Deliver(head);
      }
    }
  }
}
