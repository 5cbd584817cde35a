/** The batch handler: from the request through Build into the pool, and from the output channel to the
    response. */
module Server {
  import opened Operations
  import opened Hazards
  import opened Storage
  import opened DagNodes
  import opened Traversal
  import opened Reorder
  import opened WorkerPool
  import opened PoolProgress
  import opened PoolTheorems
  import opened Requests
  import Goroutines
  import BatchRun

  datatype BatchResponseItem = BatchResponseItem(seqId: nat, result: Value, error: string)

  // ----- handleBatch -----

  datatype Start =
    | EmptyBatch
    | BadRequest(error: TranslateError)
    | BuildFailed(buildError: BuildError)
    | Started(ops: seq<Operation>, capacity: nat)

  /** The handler up to the start of the workers: translate, build the graph, size the work channel and
      seed it. Build never fails here, and what the workers start from is the initial state of the pool. */
  method StartBatch(items: seq<BatchRequestItem>) returns (start: Start, all: seq<DAGNode>, workCh: seq<DAGNode>)
    ensures start.EmptyBatch? <==> items == []
    ensures forall k :: FirstBad(items, k) ==> start.BadRequest? && RightError(items, k, start.error)
    ensures start.Started? <==> items != [] && WellFormed(items)
    ensures !start.BuildFailed?
    ensures start.Started? ==>
      && Translates(items, start.ops) && Buildable(start.ops, |start.ops|)
      && fresh(all) && Wired(start.ops, all) && start.capacity == |start.ops|
      && Points(all, workCh, Roots(start.ops, |start.ops|)) && |workCh| <= start.capacity
  {
    all, workCh := [], [];
    if |items| == 0 {
      return EmptyBatch, all, workCh;
    }
    var translation := TranslateRequest(items);
    if translation.Rejected? {
      return BadRequest(translation.error), all, workCh;
    }
    var ops := translation.ops;
    TranslatedIsBuildable(items, ops);
    var nodes, runnable, err := Build(ops);
    var capacity, queue, _ := Prepare(ops, nodes, runnable);
    all, workCh := nodes, queue;
    start := Started(ops, capacity);
  }

  /** The response item says of the operation what it is to say. */
  ghost predicate Reports(response: BatchResponseItem, op: Operation) {
    && response.seqId == op.seqId && response.result == op.result
    && response.error == if op.err.Some? then op.err.value else ""
  }

  /** The drain loop: one response item for each operation received. */
  method DrainResponses(received: seq<Operation>) returns (responses: seq<BatchResponseItem>)
    ensures |responses| == |received|
    ensures forall i :: 0 <= i < |received| ==> Reports(responses[i], received[i])
  {
    responses := [];
    for i := 0 to |received|
      invariant |responses| == i
      invariant forall j :: 0 <= j < i ==> Reports(responses[j], received[j])
    {
      var op := received[i];
      var item := BatchResponseItem(op.seqId, op.result, "");
      if op.err.Some? {
        item := item.(error := op.err.value);
      }
      responses := responses + [item];
    }
  }

  datatype Reply =
    | Ok200(responses: seq<BatchResponseItem>)
    | BadRequest400(error: TranslateError)
    | BadGraph400(buildError: BuildError)
    | PoolError500
    | CutShort   // 504 or nothing, after a cancellation

  /** The store holds what some of the operations, closed under hazard predecessors, left there. */
  ghost predicate PartlyDone(job: Job, store: Store) {
    exists executed :: ClosedUnderPredecessors(job.batch, executed) && store == job.Partial(executed, |job.batch|)
  }

  /** The responses and the store are those of the one-by-one run. */
  ghost predicate FullyDone(job: Job, responses: seq<BatchResponseItem>, store: Store) {
    && |responses| == |job.batch| && store == job.Serial(|job.batch|)
    && forall i :: 0 <= i < |responses| ==>
         responses[i].seqId == job.batch[i].seqId && Reports(responses[i], job.SerialAnswer(i))
  }

  lemma IsPartlyDone(c: Config, s: State)
    requires c.Valid() && Reachable(c, s)
    ensures PartlyDone(c.job, s.store)
  {
    SerialEquivalenceAlways(c, s);
  }

  lemma IsFullyDone(c: Config, s: State, responses: seq<BatchResponseItem>)
    requires c.Valid() && Reachable(c, s) && s.handler.Responded200? && |responses| == |s.rob.out|
    requires forall i :: 0 <= i < |responses| ==> Reports(responses[i], s.rob.out[i])
    ensures FullyDone(c.job, responses, s.store)
  {
    Answer200(c, s);
    forall i | 0 <= i < |responses|
      ensures responses[i].seqId == c.job.batch[i].seqId
    {
      AnswerKeepsSeqId(c.job, i);
    }
  }

  // ----- what a 200 says, on the request alone -----

  /** Item k writes or deletes this rider, and its storage call does not fail. */
  ghost predicate ItemChanges(items: seq<BatchRequestItem>, faults: map<nat, string>, rider: Key, k: nat) {
    && k < |items| && items[k].riderId == rider && items[k].seqId !in faults
    && (Spells(items[k].operationType, "WRITE") || Spells(items[k].operationType, "DELETE"))
  }

  /** Of the items below `bound` in SeqID order, item m is the last one that changes this rider. */
  ghost predicate LastItem(items: seq<BatchRequestItem>, faults: map<nat, string>, rider: Key, bound: nat, m: nat) {
    && ItemChanges(items, faults, rider, m) && items[m].seqId < bound
    && forall k: nat :: ItemChanges(items, faults, rider, k) && items[k].seqId < bound ==>
         items[k].seqId <= items[m].seqId
  }

  ghost predicate NoItem(items: seq<BatchRequestItem>, faults: map<nat, string>, rider: Key, bound: nat) {
    forall k: nat :: ItemChanges(items, faults, rider, k) ==> items[k].seqId >= bound
  }

  /** What a rider has when the items below `bound` have taken effect: the payload of the last write, nothing
      after a delete, and otherwise what was there before the batch. */
  ghost predicate Has(items: seq<BatchRequestItem>, faults: map<nat, string>, before: Store,
                      rider: Key, bound: nat, value: Option<Value>) {
    && (forall m: nat :: LastItem(items, faults, rider, bound, m) ==>
          value == if Spells(items[m].operationType, "DELETE") then None
                   else if items[m].payload.Some? then Some(Boxed(items[m].payload.value)) else None)
    && (NoItem(items, faults, rider, bound) ==> value == if rider in before then Some(before[rider]) else None)
  }

  /** There is a last item that changes the rider, or none does: a rider has one thing only. */
  lemma HasOnce(items: seq<BatchRequestItem>, faults: map<nat, string>, before: Store, rider: Key, bound: nat,
                value: Option<Value>, other: Option<Value>)
    requires Has(items, faults, before, rider, bound, value) && Has(items, faults, before, rider, bound, other)
    ensures value == other
  {
    LastItemOrNone(items, faults, rider, bound);
  }

  lemma {:induction false} LastItemOrNone(items: seq<BatchRequestItem>, faults: map<nat, string>,
                                          rider: Key, bound: nat)
    ensures NoItem(items, faults, rider, bound) || exists m: nat :: LastItem(items, faults, rider, bound, m)
  {
    if bound > 0 {
      var lower := bound - 1;
      LastItemOrNone(items, faults, rider, lower);
      if k: nat :| ItemChanges(items, faults, rider, k) && items[k].seqId == lower {
        assert LastItem(items, faults, rider, bound, k);
      } else if m: nat :| LastItem(items, faults, rider, lower, m) {
        assert LastItem(items, faults, rider, bound, m);
      }
    }
  }

  /** The response to an item: its own error and no result if its storage call failed; else what a read found,
      the payload of a write, and nothing for a delete. */
  ghost predicate RightResponse(items: seq<BatchRequestItem>, faults: map<nat, string>, before: Store, k: nat,
                                response: BatchResponseItem)
    requires k < |items|
  {
    var item := items[k];
    && response.seqId == item.seqId
    && (item.seqId in faults ==> response.result == Nil && response.error == faults[item.seqId])
    && (item.seqId !in faults ==>
          && response.error == ""
          && (Spells(item.operationType, "WRITE") ==>
                item.payload.Some? && response.result == Boxed(item.payload.value))
          && (Spells(item.operationType, "DELETE") ==> response.result == Nil)
          && (Spells(item.operationType, "READ") ==>
                exists found :: Has(items, faults, before, item.riderId, item.seqId, found) &&
                  response.result == if found.Some? then found.value else Nil))
  }

  /** A 200 and the store after it, on the request items alone. */
  ghost predicate Served(items: seq<BatchRequestItem>, faults: map<nat, string>, before: Store,
                         responses: seq<BatchResponseItem>, after: Store) {
    && |responses| == |items|
    && (forall k :: 0 <= k < |items| ==>
          items[k].seqId < |items| && RightResponse(items, faults, before, k, responses[items[k].seqId]))
    && forall rider: Key ::
         Has(items, faults, before, rider, |items|, Find(after, rider))
  }

  /** The item with this SeqID, and there is only one. */
  lemma ItemOf(items: seq<BatchRequestItem>, i: nat) returns (k: nat)
    requires WellFormed(items) && i < |items|
    ensures k < |items| && items[k].seqId == i
    ensures forall j :: 0 <= j < |items| && items[j].seqId == i ==> j == k
  {
    assert Occurs(items, |items|, i);
    k :| 0 <= k < |items| && items[k].seqId == i;
    Pigeonhole(items);
  }

  /** An item changes a rider exactly when its operation does. */
  lemma SameChanges(items: seq<BatchRequestItem>, job: Job, rider: Key, k: nat)
    requires Translates(items, job.batch) && k < |items|
    ensures ItemChanges(items, job.faults, rider, k) <==> Changes(job, items[k].seqId, rider)
  {
    assert Carries(job.batch[items[k].seqId], items[k]);
  }

  lemma {:induction false} LastItemIsLastChange(items: seq<BatchRequestItem>, job: Job, rider: Key, bound: nat, m: nat)
    requires WellFormed(items) && Translates(items, job.batch) && bound <= |items|
    requires LastItem(items, job.faults, rider, bound, m)
    ensures LastChange(job, Before(bound), bound, rider, items[m].seqId)
  {
    SameChanges(items, job, rider, m);
    forall j | items[m].seqId < j < bound
      ensures !Changes(job, j, rider)
    {
      var k := ItemOf(items, j);
      SameChanges(items, job, rider, k);
    }
  }

  lemma {:induction false} NoItemIsNoChange(items: seq<BatchRequestItem>, job: Job, rider: Key, bound: nat)
    requires WellFormed(items) && Translates(items, job.batch) && bound <= |items|
    requires NoItem(items, job.faults, rider, bound)
    ensures NoChange(job, Before(bound), bound, rider)
  {
    forall j | 0 <= j < bound
      ensures !Changes(job, j, rider)
    {
      var k := ItemOf(items, j);
      SameChanges(items, job, rider, k);
    }
  }

  function Find(store: Store, rider: Key): Option<Value> {
    if rider in store then Some(store[rider]) else None
  }

  lemma {:induction false} SerialHas(items: seq<BatchRequestItem>, job: Job, rider: Key, bound: nat)
    requires WellFormed(items) && Translates(items, job.batch) && bound <= |items|
    ensures Has(items, job.faults, job.store, rider, bound, Find(job.Serial(bound), rider))
  {
    SerialLaw(job, bound, rider);
    forall m: nat | LastItem(items, job.faults, rider, bound, m)
      ensures Find(job.Serial(bound), rider) ==
                if Spells(items[m].operationType, "DELETE") then None
                else if items[m].payload.Some? then Some(Boxed(items[m].payload.value)) else None
    {
      LastItemIsLastChange(items, job, rider, bound, m);
      assert Carries(job.batch[items[m].seqId], items[m]);
      OneWord(items[m].operationType);
    }
    if NoItem(items, job.faults, rider, bound) {
      NoItemIsNoChange(items, job, rider, bound);
    }
  }

  lemma SerialResponds(items: seq<BatchRequestItem>, job: Job, k: nat, response: BatchResponseItem)
    requires WellFormed(items) && Translates(items, job.batch) && k < |items|
    requires Reports(response, job.SerialAnswer(items[k].seqId))
    ensures RightResponse(items, job.faults, job.store, k, response)
  {
    var i, rider := items[k].seqId, items[k].riderId;
    assert Carries(job.batch[i], items[k]);
    OneWord(items[k].operationType);
    SerialHas(items, job, rider, i);
    AnswerLaw(job, i);
    assert i !in job.faults && job.batch[i].typ.OpRead? ==>
      job.SerialAnswer(i).result == if Find(job.Serial(i), rider).Some? then Find(job.Serial(i), rider).value else Nil;
  }

  /** The one-by-one results and store are what the request says. */
  lemma FullyDoneIsServed(items: seq<BatchRequestItem>, job: Job, responses: seq<BatchResponseItem>, after: Store)
    requires WellFormed(items) && Translates(items, job.batch) && FullyDone(job, responses, after)
    ensures Served(items, job.faults, job.store, responses, after)
  {
    forall k | 0 <= k < |items|
      ensures RightResponse(items, job.faults, job.store, k, responses[items[k].seqId])
    {
      SerialResponds(items, job, k, responses[items[k].seqId]);
    }
    forall rider: Key
      ensures Has(items, job.faults, job.store, rider, |items|, Find(after, rider))
    {
      SerialHas(items, job, rider, |items|);
    }
  }

  // ----- the whole handler -----

  /** The reply goes with the end of the batch: s is the final state of a run, with this store. */
  ghost predicate Concludes(c: Config, s: State, reply: Reply) {
    && Reachable(c, s) && Terminal(s)
    && (reply.Ok200? <==> s.handler.Responded200?)
    && (reply.PoolError500? <==> s.handler.Responded500?)
    && (reply.CutShort? <==> s.handler.GaveUp?)
    && (!reply.Ok200? ==> s.cancelled)
  }

  /** The whole handler, under any scheduler and with any number of workers. It always comes to an end. A
      malformed request changes nothing and gets its first error. A well-formed one that nothing cancels
      is answered 200. A 200 carries the one-by-one results and leaves the one-by-one store; a 500 leaves
      that store too. Even cut short, the store is that of some operations closed under hazard predecessors,
      in SeqID order. */
  method HandleBatch(items: seq<BatchRequestItem>, storage: ShardedMap, faults: map<nat, string>,
                     numWorkers: int, numCpu: nat, mayCancel: bool)
    returns (reply: Reply, ghost c: Config, ghost s: State)
    requires storage.Valid() && numCpu > 0
    modifies storage.shards
    ensures storage.Valid()
    ensures items == [] || !WellFormed(items) ==> storage.Contents() == old(storage.Contents())
    ensures items == [] ==> reply == Ok200([])
    ensures forall k :: FirstBad(items, k) ==> reply.BadRequest400? && RightError(items, k, reply.error)
    ensures items != [] && WellFormed(items) ==>
      && Translates(items, c.Batch()) && c.job.faults == faults && c.job.store == old(storage.Contents())
      && c.workers == (if numWorkers <= 0 then numCpu else numWorkers)
      && Concludes(c, s, reply) && s.store == storage.Contents() && (!mayCancel ==> reply.Ok200?)
      && (reply.Ok200? ==> FullyDone(c.job, reply.responses, storage.Contents()))
      && (reply.Ok200? ==> Served(items, faults, old(storage.Contents()), reply.responses, storage.Contents()))
      && (reply.PoolError500? ==> storage.Contents() == c.job.Serial(|items|))
      && PartlyDone(c.job, storage.Contents())
  {
    c := Config(Job([], faults, storage.Contents()), 0);
    s := Init(c);
    var start, nodes, workCh := StartBatch(items);
    match start {
      case EmptyBatch => reply := Ok200([]);
      case BadRequest(error) => reply := BadRequest400(error);
      case BuildFailed(buildError) => reply := BadGraph400(buildError);
      case Started(ops, capacity) =>
        var workers := if numWorkers <= 0 then numCpu else numWorkers;
        reply, c, s := RunBatch(ops, nodes, workCh, capacity, storage, faults, workers, mayCancel);
        if reply.Ok200? {
          FullyDoneIsServed(items, c.job, reply.responses, storage.Contents());
        }
    }
  }

  /** The handler from the reorder buffer to the response. */
  method RunBatch(ops: seq<Operation>, ghost nodes: seq<DAGNode>, workCh: seq<DAGNode>, capacity: nat,
                  storage: ShardedMap, faults: map<nat, string>, workers: nat, mayCancel: bool)
    returns (reply: Reply, ghost c: Config, ghost s: State)
    requires storage.Valid() && ops != [] && Buildable(ops, |ops|) && workers > 0
    requires Wired(ops, nodes) && Points(nodes, workCh, Roots(ops, |ops|)) && capacity == |ops|
    modifies nodes, storage.shards
    ensures storage.Valid()
    ensures c == Config(Job(ops, faults, old(storage.Contents())), workers)
    ensures Concludes(c, s, reply) && s.store == storage.Contents() && (!mayCancel ==> reply.Ok200?)
    ensures reply.Ok200? ==> FullyDone(c.job, reply.responses, storage.Contents())
    ensures reply.PoolError500? ==> storage.Contents() == c.job.Serial(|ops|)
    ensures PartlyDone(c.job, storage.Contents())
  {
    var rob := new InOrderReorderBuffer();
    var ctx := new Context();
    rob.Drain(ctx, capacity);
    var pool := new BatchRun.Pool(ops, nodes, workCh, capacity, faults, storage, rob, workers);
    pool.RunToEnd(mayCancel);
    c, s := pool.c, pool.s;
    IsPartlyDone(c, s);
    if pool.handler.Responded200? {
      var responses := DrainResponses(rob.out);
      IsFullyDone(c, s, responses);
      reply := Ok200(responses);
    } else if pool.handler.Responded500? {
      DrainedIsComplete(c, s);
      reply := PoolError500;
    } else {
      reply := CutShort;
    }
    OnlyCancelledFails(c, s);
  }

  lemma OnlyCancelledFails(c: Config, s: State)
    requires c.Valid() && Reachable(c, s) && Terminal(s)
    ensures s.handler.Responded200? || s.cancelled
  {
    if !s.cancelled {
      Goroutines.EndsWell(c, s);
    }
  }

  /** The handler answers 200 with these responses: the output it drained belongs to a run of the pool on
      the translated request. */
  ghost predicate Answers(items: seq<BatchRequestItem>, c: Config, s: State, responses: seq<BatchResponseItem>) {
    && items != [] && WellFormed(items) && Translates(items, c.Batch()) && c.workers > 0
    && Reachable(c, s) && s.handler.Responded200?
    && |responses| == |s.rob.out|
    && forall i :: 0 <= i < |responses| ==> Reports(responses[i], s.rob.out[i])
  }

  /** End to end: a 200 response has one entry per item, entry i carries SeqID i and the sequential result
      of operation i, and the store is the sequential one; and all that is what the request says. */
  lemma {:induction false} EndToEnd(items: seq<BatchRequestItem>, c: Config, s: State,
                                    responses: seq<BatchResponseItem>)
    requires Answers(items, c, s, responses)
    ensures |responses| == |items| && s.store == c.job.Serial(|items|)
    ensures forall i :: 0 <= i < |items| ==>
              responses[i].seqId == i && responses[i].result == c.job.SerialAnswer(i).result
    ensures FullyDone(c.job, responses, s.store)
    ensures Served(items, c.job.faults, c.job.store, responses, s.store)
  {
    AnswersFullyDone(items, c, s, responses);
    TranslatedIsBuildable(items, c.Batch());
    EntriesInOrder(c.job, responses, s.store);
    FullyDoneIsServed(items, c.job, responses, s.store);
  }

  lemma AnswersFullyDone(items: seq<BatchRequestItem>, c: Config, s: State, responses: seq<BatchResponseItem>)
    requires Answers(items, c, s, responses)
    ensures FullyDone(c.job, responses, s.store)
  {
    TranslatedIsBuildable(items, c.Batch());
    assert c.Valid();
    IsFullyDone(c, s, responses);
  }

  lemma EntriesInOrder(job: Job, responses: seq<BatchResponseItem>, store: Store)
    requires Buildable(job.batch, |job.batch|) && FullyDone(job, responses, store)
    ensures forall i :: 0 <= i < |responses| ==>
              responses[i].seqId == i && responses[i].result == job.SerialAnswer(i).result
  {
  }

  /** A failed storage call is reported at its own item only, and without a result: operations that depend
      on it run as usual. */
  lemma FailureDoesNotSpread(items: seq<BatchRequestItem>, c: Config, s: State,
                             responses: seq<BatchResponseItem>, i: nat)
    requires Answers(items, c, s, responses) && i < |items|
    ensures i < |responses| && responses[i].error == if i in c.job.faults then c.job.faults[i] else ""
    ensures i in c.job.faults ==> responses[i].result == Nil
  {
    EndToEnd(items, c, s, responses);
    var k := ItemOf(items, i);
    assert RightResponse(items, c.job.faults, c.job.store, k, responses[items[k].seqId]);
  }

  lemma AnswerKeepsSeqId(job: Job, i: nat)
    requires i < |job.batch|
    ensures job.SerialAnswer(i).seqId == job.batch[i].seqId
  {
  }

  /** With the same failing calls and initial store, a 200 response and the final store depend on neither
      the order of the request items, nor the number of workers, nor the schedule. */
  lemma ResponseIsDetermined(items: seq<BatchRequestItem>, c: Config, s: State,
                             responses: seq<BatchResponseItem>,
                             items': seq<BatchRequestItem>, c': Config, s': State, responses': seq<BatchResponseItem>)
    requires Answers(items, c, s, responses) && Answers(items', c', s', responses')
    requires multiset(items) == multiset(items')
    requires c.job.faults == c'.job.faults && c.job.store == c'.job.store
    ensures responses == responses' && s.store == s'.store
  {
    TranslationIgnoresOrder(items, c.Batch(), items', c'.Batch());
    EndToEnd(items, c, s, responses);
    EndToEnd(items', c', s', responses');
  }
}
