# Khaos: a verified model of out-of-order batch execution

Khaos turns a batch of reads, writes and deletes into a hazard graph, lets a fixed set of workers execute
the graph through one shared channel, and puts the results back into SeqID order. This project models that
pipeline and proves its central claim: **for every batch, every number of workers, every interleaving and
every set of failing storage calls, each operation gets the result, and the store ends up with the contents,
that executing the batch one by one in SeqID order gives.**

Check everything with `dafny verify dfyconfig.toml` (Dafny 4.11).

## The layers

| file | what it holds |
|---|---|
| `Operations.dfy` | operations, what executing one does, the one-by-one reference (`Job.Serial`), the store of any executed subset in SeqID order (`Job.Partial`), and what both mean on the batch alone |
| `Hazards.dfy` | the hazard graph stated by positions: edges, paths, roots, number of edges |
| `Storage.dfy` | bitwise operators, FNV-1a and the 256-way sharded map, as one plain map |
| `DagNodes.dfy` | heap nodes, `AddDependency`, `Release`, `executeNode`, and `Build` with its two running maps |
| `Traversal.dfy` | the breadth-first search, and what `Run` sets up from its result |
| `Reorder.dfy` | the reorder buffer: its states, and the class with `Drain` and `Commit` |
| `WorkerPool.dfy` | `Run`'s goroutines, the buffer's lock, the handler and cancellation as a transition system |
| `PoolInvariant.dfy`, `PoolSteps.dfy` | the inductive invariant, and that every step keeps it |
| `PoolProgress.dfy` | deadlock freedom and the termination measure |
| `PoolTheorems.dfy` | what holds of every run |
| `SlowCalls.dfy` | what a storage call that hangs holds up, and what it does not |
| `Goroutines.dfy` | worker goroutines with heap nodes for positions, and where each of their actions leads in the transition system |
| `BatchRun.dfy` | a batch under way on the heap: the channel, the counters, the lock and the goroutines as one object whose methods are the atomic actions, and a scheduler that may pick any goroutine |
| `Requests.dfy` | operation types and request translation |
| `Server.dfy` | the whole handler, the drain loop, end-to-end results stated on the request items |
| `Utf8.dfy` | valid UTF-8 text, as byte patterns and as encodings of code points |
| `Dispatcher.dfy` | the client's retry buffer, round trips over a lossy network, and whole sessions of the client |

`Build`, the search, `Release`, `executeNode`, `Commit`, the sharded map, `translateRequest`, the handler and
the client buffer are methods over mutable objects, proved against declarative contracts. `Run` is concurrent,
so it appears twice. `WorkerPool.dfy` is the specification: a state machine over values. `BatchRun.dfy` is the
code: a class whose methods act on the nodes, the sharded map and the reorder buffer in place, each proved to be
exactly one step of that machine; a goroutine blocks exactly when the machine has no step for it
(`BatchRun.Pool.Turn`). `BatchRun.Pool.RunToEnd` runs it under an arbitrary scheduler, and `Server.HandleBatch`
puts all the parts together. One step is one atomic action of one goroutine:

| step | source |
|---|---|
| `Recv`, `SeeWorkClosed`, `SeeCancelled` | the select, workerpool.go:188-192 and 209-210 |
| `Execute` | workerpool.go:194, with the storage call as the atomic point |
| `Decrement`, `PublishDone` | one turn of the release loop, and closing `done`, types.go:215-220 |
| `LockAndStore` | taking the lock and storing the operation, reorder.go:55-58 |
| `TakeHead`, `Unlock` | the lookup and delete at the top of the flush loop, or leaving it, reorder.go:61-65 |
| `Send`, `Abandon` | the two sides of the select, reorder.go:67-77; a send meets the handler's receive |
| `Push`, `EndPushing` | workerpool.go:200-203 |
| `CountDown`, `CloseWork` | workerpool.go:205-207, as two steps |
| `Cancel` | the context ends, at any time |
| `ReturnRun` | workerpool.go:216-217 |
| `SeeOutClosed`, `GiveUp`, `Respond` | server.go:223-249 |

A run is any sequence of enabled steps; `Reachable` states are those some run leads to. `Job.faults` says
which storage calls fail, by SeqID, and with which error; it is arbitrary and fixed per run, which loses
nothing because each operation executes at most once (`PoolTheorems.ExecutedOnce`).

The invariant is a set of integer balances. For every position x it adds up how often x occurs in the
channel, with the workers and among the executed ones; how many decrements are still owed to x; and so on.
A step moves one token from one place to another, so most of each proof is addition.

A lemma carries `{:induction false}` wherever Dafny would otherwise start an induction of its own: each proof
states its own recursion.

## What the code does, where its comments say otherwise

- types.go:108-110 says the dependents of a failed operation are failed too. No code does that: in every
  reachable state an executed operation has an error exactly when its own storage call failed
  (`PoolTheorems.FailuresStayLocal`). So errors spread along the hazard edges if and only if the storage calls of
  the dependents happen to fail as well (`PoolTheorems.ErrorsSpreadExactly`).
  `PoolTheorems.DependentOfFailedSucceeds` has a failing write, and a read with a hazard edge from it that
  succeeds in an answered run.
- interfaces.go:69-71 says the drain channel is closed at once when the context is cancelled. reorder.go never
  does that: cancelled or not, the channel is closed exactly when the whole batch has been sent
  (`PoolTheorems.OutputClosedExactly`), and every batch has a cancelled run that ends, with no goroutine left,
  while the channel is open (`PoolTheorems.CancelledAndOpen`). Once a send was abandoned it can never close
  (`PoolTheorems.AbandonFreezesOutput`).
- README.md:39 of the repository says a slow write never blocks an unrelated one. While any workers hang in their
  storage calls, an operation that is not ordered after a hanging one can be executed by the others if and only
  if some worker is free (`SlowCalls.UnrelatedProceedsExactly`); with a free worker, every run of the others that
  goes as far as it can finishes it (`SlowCalls.UnrelatedFinishes`). `SlowCalls.UnrelatedWriteWaits` has one
  worker and two unrelated writes. The results of unrelated operations still reach the caller only after those
  with smaller SeqIDs (`SlowCalls.SlowCallsHoldUpOnlyDependents`).
- README.md:86-92 of the repository promises effectively-once delivery from the client. The client empties its
  buffer on any HTTP 200, and the gateway answers 200 also when single items carry errors, so an update whose
  storage call failed is dropped (`Dispatcher.AnsweredButLost`, and on the heap `Dispatcher.LoseUpdate`).
  `Dispatcher.DeliveredExactly` says exactly which failing items an answered batch tolerates, and
  `Dispatcher.Session` proves the promise for those.
- php/KhaosDispatcher.php:39-44 means to keep coordinates in range, but a coordinate that is NaN passes both
  comparisons, and text that is not UTF-8 passes as well (`Dispatcher.UnencodableIsAccepted`). JSON cannot
  represent either, so every later dispatch throws and keeps the buffer (`Dispatcher.PoisonedForGood`). In the
  model, a dispatch of a non-empty buffer can be answered exactly when all coordinates are finite and all text is
  UTF-8 (`Dispatcher.KhaosDispatcher.DispatchBatch`).

## Model

| member | source | states |
|---|---|---|
| Operations.ExecuteNext | workerpool.go:81-110 | if the earlier conflicting operations have executed and no later one has, executing i now gives its one-by-one result, and the store stays that of the executed set in SeqID order |
| Operations.SimulateSequentially | integration_test.go:37-52 | the plain reference loop over one map gives the results and final store of the one-by-one run |
| Operations.AnswerLaw | workerpool.go:81-110 | one by one, a failed call leaves its error and no result; otherwise a read answers what the last earlier write of its key that did not fail put there, nil after such a delete, and else the initial value; a write answers its value, a delete nil; nothing else of the operation changes |
| Operations.SerialLaw | workerpool.go:81-110 | each key of the one-by-one store has what the last write or delete of it that did not fail left, else its initial value |
| Operations.PartialLaw | workerpool.go:81-110 | so has the store of any executed operations in SeqID order |
| Hazards.PathExact | hazard.go:62-97 | there is a path from i to j if and only if i < j, the keys are equal and a write or delete of that key lies in i..j: every conflicting pair is ordered and no other pair is |
| Hazards.RootHasNoHazard | hazard.go:99-104 | a position has no predecessor if and only if no earlier position conflicts with it |
| Hazards.DependentsOnce | hazard.go:72-84 | j is listed among the dependents of i once if there is an edge, else never |
| Hazards.ListedInOrder | hazard.go:99-104 | dependents and roots are listed in SeqID order |
| Hazards.EdgeBound | hazard.go:32-37 | a batch has at most as many edges as operations plus reads, hence at most twice its size |
| DagNodes.ListedBound | hazard.go:72-91 | the nodes that Build made list as many dependents in all as there are edges, so within that bound |
| Hazards.ClosedUnderHazards | interfaces.go:17-32 | a set closed under direct predecessors contains every earlier conflicting position of its members |
| DagNodes.DAGNode.AddDependency | types.go:184-187 | appends the dependent and raises its in-degree by one, nothing else |
| DagNodes.DAGNode.Release | types.go:213-222 | called once and without interruption, every dependent loses one per listing, and exactly those passing through zero are returned, once each and in the order listed; done is closed |
| DagNodes.DAGNode.Execute | workerpool.go:81-110 | a context error is written and nothing else changes, the result included; otherwise the value found, the value stored, or nothing is the result, and the contents change at exactly this key; an unknown type gets its error |
| DagNodes.TrackedPredecessors | hazard.go:9-30 | the two running maps hold exactly the positions the next operation must wait for |
| DagNodes.Build | hazard.go:56-107 | succeeds if and only if SeqIDs are the positions and all types are known, else reports the first offending position; the nodes then carry exactly the hazard edges with matching in-degrees, and runnable is exactly the roots |
| DagNodes.WiredEdges | hazard.go:72-91 | in terms of nodes: a dependent is listed once if and only if there is a hazard edge, and the in-degree is the number of distinct predecessors |
| Traversal.ReachableNodes | workerpool.go:51-73 | terminates and returns, without repetition, the least set containing the roots and closed under dependents |
| Traversal.Grounded | workerpool.go:39-43 | every node of a built graph lies in every closed set that contains the roots |
| Traversal.Prepare | workerpool.go:168-180 | from Build's runnable set the search finds the whole batch, so capacity and remaining are both the batch size, and seeding fits |
| Reorder.CommitsStayInOrder | reorder.go:54-79 | after any distinct commits in any order, the output is the longest gap-free run of them, pending the rest, and the channel is closed exactly when all are out |
| Reorder.AnyOrderComesOutInOrder | reorder.go:47-53 | for every permutation of the batch, the output is the batch in SeqID order and the channel is closed |
| Reorder.InOrderReorderBuffer.Drain | reorder.go:35-45 | records size and context; an empty batch is closed at once |
| Reorder.InOrderReorderBuffer.Commit | reorder.go:54-79 | uncancelled, equals the value-level commit and is in order; under cancellation the output stays a gap-free prefix, and after an abandoned send nothing is emitted or closed any more |
| Reorder.InOrderReorderBuffer.SendHead | reorder.go:61-77 | one turn of the flush loop: the head leaves pending, and is either sent, with counters and close, or abandoned because of cancellation |
| Storage.ComputeFnv1a | storage.go:33-40 | the byte loop computes the hash: it is the end of a chain of words from 2166136261, one per byte from the first to the last, each the exclusive or of the word before and the byte, times 16777619 modulo 2^32 |
| Storage.HashChain | storage.go:33-40 | there is such a chain and it ends in the hash |
| Storage.ChainEndsInHash | storage.go:33-40 | every such chain ends in the hash |
| Storage.ShardOf | storage.go:15-18 | the shard is the hash modulo 256 |
| Storage.BitByBit | storage.go:33-40 | exclusive or and conjunction of words work on each bit by itself |
| Storage.KnownHashes | storage.go:20-40 | the published values of FNV-1a for the empty string and "a" |
| Storage.MaskIsModulo | storage.go:15-18 | masking a hash with 255 is its remainder by 256, so the shard is in range |
| Storage.CallRefines | storage.go:78-121 | one locked section on the shard of its key acts on the merged contents as on one plain map, and keeps every key in its shard |
| Storage.ShardedRefinesPlain | storage.go:51-64 | any order of locked sections gives the replies and contents of the same sequence on one plain map |
| Storage.PlainLaw | storage.go:78-121 | on one plain map, each key holds what the last set or delete of it left, else what it held before |
| Storage.PlainReplies | storage.go:78-121 | and a get is answered with what the calls before it left under its key |
| Storage.DifferentShardsCommute | storage.go:42-45 | locked sections on different shards commute, replies included |
| Storage.ShardedMap.Get | storage.go:86-95 | the context's error, or the value under the key of the merged contents and whether it is there |
| Storage.ShardedMap.Set | storage.go:98-107 | the context's error and no change, or the merged contents updated at exactly this key |
| Storage.ShardedMap.Delete | storage.go:112-121 | the context's error and no change, or the merged contents without this key |
| PoolSteps.ExecuteHazards | workerpool.go:130-139 | when a worker is about to execute a node, every earlier conflicting operation has executed and no later one has |
| PoolSteps.StepKeeps | workerpool.go:183-214 | every step of every goroutine keeps the invariant |
| PoolSteps.ReachableHolds | workerpool.go:168-218 | the invariant holds in every reachable state |
| PoolProgress.RoomToPush | workerpool.go:130-144 | a worker about to push always finds room in the work channel |
| PoolProgress.StepLowers | workerpool.go:183-217 | every step, cancellation included, lowers a natural number |
| PoolTheorems.SerialEquivalenceAlways | workerpool.go:188-211 | in every reachable state, cancelled or not: the executed set is closed under predecessors, the store is that of the executed operations in SeqID order, and every result and everything emitted is the one-by-one one |
| PoolTheorems.SerialEquivalenceAtEnd | workerpool.go:216-217 | if Run returns nil, every operation has its one-by-one result and the store is the one-by-one store |
| PoolTheorems.Answer200 | server.go:218-249 | whenever the handler answers 200, the output is complete, in order and one-by-one, and so is the store |
| PoolTheorems.ScheduleIrrelevant | workerpool.go:182-214 | output and store of an answered batch depend on neither schedule nor number of workers |
| PoolTheorems.DeadlockFree | workerpool.go:120-144 | in every reachable state with something left to do, a step other than cancelling is enabled |
| PoolTheorems.EveryRunIsFinite | workerpool.go:153-159 | no run is longer than the measure of the initial state |
| PoolTheorems.EveryRunEnds | workerpool.go:146-159 | a run that can go no further has ended with all goroutines gone, cancelled or not; uncancelled, every node is finished, the work channel is closed and the answer is 200 |
| PoolTheorems.Answer200StaysPossible | workerpool.go:146-155 | every reachable uncancelled state has a continuation, returned with its steps, to the 200 answer |
| PoolTheorems.ClosedOutputIsComplete | reorder.go:68-75 | whenever the output channel is closed, cancelled or not, the output is all one-by-one answers in order and the store is the one-by-one store |
| PoolTheorems.DrainedIsComplete | server.go:244-247 | so it is when the handler waits for Run, and when it answers 500 because of Run's error |
| PoolTheorems.NilUnlessCancelled | workerpool.go:216-217 | Run returns an error, and the handler answers 500, only after a cancellation |
| PoolTheorems.ReturnExactly | workerpool.go:216-217 | over a whole run, Run returns the context's error if and only if a cancellation came before its return, and the handler answers 200 only to nil, 500 only to the error |
| PoolTheorems.FirstInFirstOut | workerpool.go:175-178 | over a whole run, roots and sent nodes are, in order, the received ones followed by those still in the work channel |
| PoolTheorems.Conservation | workerpool.go:175-207 | every node is in exactly one place: waiting, in the channel, with one worker, or finished; remaining counts those not finished |
| PoolTheorems.ExecutedOnce | workerpool.go:130-139 | no run executes an operation twice, and one after which Run returned nil executed each exactly once |
| PoolTheorems.ReleasedOnce | types.go:201-222 | over a whole run, Release returns a root never and any other node exactly once if it became runnable, else never |
| PoolTheorems.ReturnStep | types.go:213-219 | a decrement that returns a node finds all its predecessors executed, and nothing else changes who is waiting |
| PoolTheorems.InDegreeIsUnreleased | types.go:128-137 | in every reachable state the counter of a node is the number of its predecessors whose Release loop has not reached it |
| PoolTheorems.ChannelSafety | workerpool.go:130-159 | the channel never exceeds its capacity, no push blocks, nothing is sent on or closed after the close, no done channel is closed twice, and at the close the channel is empty and all nodes are finished |
| PoolTheorems.AbandonFreezesOutput | reorder.go:60-78 | once a send was abandoned, no later step of any goroutine emits anything or closes the output channel |
| PoolTheorems.OutputClosedExactly | interfaces.go:68-71 | in every reachable state the output channel is closed if and only if the whole batch has been sent, also right after a cancellation |
| PoolTheorems.CancelledAndOpen | interfaces.go:68-71 | every batch has a cancelled run that ends with all goroutines gone and the output channel open |
| PoolTheorems.FailuresStayLocal | types.go:106-111 | in every reachable state, an executed operation has an error exactly when its own storage call failed |
| PoolTheorems.ErrorsSpreadExactly | types.go:106-111 | in every reachable state, errors spread along the edges between executed operations if and only if the failing storage calls are closed under those edges |
| PoolTheorems.DependentOfFailedSucceeds | types.go:106-111 | a failing write, and a read that depends on it by a hazard edge and has no error in the 200 answer |
| SlowCalls.SlowCallsHoldUpOnlyDependents | README.md:39-39 | when only hanging storage calls are left and a worker is free, an operation is executed and finished if and only if it is neither hanging nor ordered after a hanging one, and the output has got exactly to the first that is |
| SlowCalls.UnrelatedProceedsExactly | README.md:39-39 | while any workers hang, an operation that none of them holds up can be executed by steps of the others if and only if some worker is free |
| SlowCalls.UnrelatedFinishes | README.md:39-39 | with a free worker, every run of the others that goes as far as it can has finished every operation that no hanging call holds up |
| SlowCalls.OthersCarryOn | README.md:39-39 | from a state with hanging workers there is a run of only the other goroutines, returned with its steps, until only the hanging calls are left |
| SlowCalls.NoFreeWorkerStallsAll | workerpool.go:184-192 | when every worker hangs nothing else moves |
| SlowCalls.UnrelatedWriteWaits | README.md:39-39 | one worker and two writes without a path between them: the second waits for the first |
| Goroutines.NoPanic | workerpool.go:200-207 | no worker ever sends on or closes a closed channel, nor finds the work channel full, and none closes a done channel twice |
| Goroutines.AllBlocked | workerpool.go:120-144 | when no goroutine but a cancellation can move, the batch has ended |
| Goroutines.ExecutedIsDone | types.go:220-220 | once Run has returned, the done channel of every executed node is closed |
| BatchRun.Pool.constructor | workerpool.go:168-185 | what Run sets up from the built nodes is the initial state of the transition system |
| BatchRun.Pool.Recv | workerpool.go:188-192 | the select's receive, on the heap, is the Recv step |
| BatchRun.Pool.SeeWorkClosed | workerpool.go:189-192 | an idle worker that finds the channel closed and empty exits: the SeeWorkClosed step |
| BatchRun.Pool.SeeCancelled | workerpool.go:209-210 | an idle worker that notices cancellation exits: the SeeCancelled step |
| BatchRun.Pool.Execute | workerpool.go:194-194 | executeNode on the heap node and the sharded map is the Execute step |
| BatchRun.Pool.Decrement | types.go:215-219 | one decrement of a heap node's counter is the Decrement step |
| BatchRun.Pool.PublishDone | types.go:220-221 | closing done, which is still open, is the PublishDone step |
| BatchRun.Pool.LockAndStore | reorder.go:54-58 | taking the lock and storing the node is the LockAndStore step |
| BatchRun.Pool.TakeHead | reorder.go:61-66 | the head leaves pending: the TakeHead step |
| BatchRun.Pool.Send | reorder.go:67-75 | the handler receives the head, the output channel is still open: the Send step |
| BatchRun.Pool.Abandon | reorder.go:76-77 | the send is given up and the lock released: the Abandon step |
| BatchRun.Pool.Unlock | reorder.go:61-64 | no head is pending and the lock is released: the Unlock step |
| BatchRun.Pool.Push | workerpool.go:200-203 | the send on the work channel finds it open and with room: the Push step |
| BatchRun.Pool.EndPushing | workerpool.go:200-205 | all runnable nodes are in the channel: the EndPushing step |
| BatchRun.Pool.CountDown | workerpool.go:205-205 | exactly the worker that reaches zero goes on to close: the CountDown step |
| BatchRun.Pool.CloseWork | workerpool.go:205-207 | the work channel is closed, for the first time: the CloseWork step |
| BatchRun.Pool.ReturnRun | workerpool.go:216-217 | once all workers have exited, Run returns the context's error: the ReturnRun step |
| BatchRun.Pool.SeeOutClosed | server.go:223-226 | the handler finds the output channel closed: the SeeOutClosed step |
| BatchRun.Pool.GiveUp | server.go:233-240 | the handler notices cancellation and returns: the GiveUp step |
| BatchRun.Pool.Respond | server.go:244-249 | the handler answers 200 or 500 according to Run's result: the Respond step |
| BatchRun.Pool.Select | workerpool.go:188-210 | an idle worker takes one of the ready cases, or none is ready in the transition system either |
| BatchRun.Pool.CommitTurn | reorder.go:54-79 | a worker inside Commit takes its next step, or waits for the lock or the receiver exactly as in the transition system |
| BatchRun.Pool.Turn | workerpool.go:183-214 | the chosen goroutine takes exactly one step of its own in the transition system, or nothing changes and it has none |
| BatchRun.Pool.RunToEnd | workerpool.go:168-218 | under any scheduler, and with cancellation at any time if allowed, the batch ends with all goroutines gone; without cancellation the answer is 200; with 200, every node's result, the output and the store are the one-by-one ones |
| Requests.ParseExact | server.go:162-173 | an operation type is accepted exactly when its letters are those of READ, WRITE or DELETE, each as it is or 32 code points further (or the dotless i), between any white space |
| Requests.KnownSpellings | server.go:162-173 | " read\n", "Write" and "\tdElEtE " are accepted, "reads" is not |
| Requests.Pigeonhole | server.go:120-131 | distinct seq_ids below n for n items are exactly a permutation of 0..n-1 |
| Requests.TranslateItem | server.go:133-148 | accepts exactly the items with one of the three words, a rider, and a payload if it is a write, and returns an operation with the item's seq_id, rider, type and payload; otherwise reports the first of the three errors |
| Requests.FirstUnseen | server.go:153-157 | the first index that was not seen, if any |
| Requests.TranslateRequest | server.go:119-160 | succeeds if and only if the seq_ids are a permutation and every item is acceptable, and puts operation i at index i; else reports, for the first item that is not fine, out of range if its seq_id is at least n, duplicate if an earlier item has it, and otherwise what is wrong with the item itself |
| Requests.TranslateNext | server.go:124-150 | one turn of the loop: which item is accepted after those before it, and which error it gets |
| Requests.RightErrorExactly | server.go:124-148 | an item has an error exactly when it is not fine, and only one |
| Requests.MissingNeverReported | server.go:153-157 | the missing-seq_id check never fires: a rejection is always for the first item that is not fine |
| Requests.TranslationIgnoresOrder | server.go:119-160 | permuted items translate to the same operations |
| Requests.TranslatedIsBuildable | server.go:119-160 | translated operations are dense, known and blank, so Build accepts them |
| Server.StartBatch | server.go:188-203 | the handler up to the workers: the three outcomes exactly, with the right error, Build never fails, the nodes carry exactly the hazard edges, and the work channel has the roots and room for the whole batch |
| Server.HandleBatch | server.go:179-250 | terminates under every scheduler; a malformed request changes nothing and gets its first error; a well-formed one that nothing cancels is answered 200; the reply fits the final state of a run; a 200 answers every item as the request says, with nothing but its error if its call failed, and each rider is left as the request says; a 500 leaves the one-by-one store too; cut short, the store is that of a hazard-closed part of the batch |
| Server.RunBatch | server.go:205-249 | the handler from the reorder buffer on: same promises for a built batch and any positive number of workers |
| Server.DrainResponses | server.go:218-231 | one response item per operation received, in order, with its SeqID, its result and its error |
| Server.EndToEnd | server.go:179-250 | a 200 response has one entry per item, entry i carries SeqID i and the one-by-one result of operation i, the store is the one-by-one store, and both are what the request items say |
| Server.FullyDoneIsServed | server.go:218-249 | one-by-one results and store, stated on the request items: a read answers the payload of the last earlier write of its rider that did not fail, nil after such a delete, else what was there before the batch; a write its payload, a delete nil, a failed call nil and its error |
| Server.HasOnce | server.go:218-249 | that is exactly one answer |
| Server.FailureDoesNotSpread | server.go:227-230 | in a 200 response an item carries an error message exactly when its own storage call failed, and then that message and no result |
| Server.ResponseIsDetermined | server.go:179-250 | with the same failing calls and initial store, response and store depend on neither item order, number of workers nor schedule |
| Dispatcher.KhaosDispatcher.AddRiderUpdate | php/KhaosDispatcher.php:25-60 | buffers at the end exactly the acceptable updates, NaN coordinates included; else changes nothing and reports the first violation, each with its exact condition |
| Dispatcher.TrimmedAway | php/KhaosDispatcher.php:33-50 | PHP's trim leaves nothing exactly of texts of spaces, tabs, newlines, returns, NULs and vertical tabs |
| Utf8.Utf8Exactly | php/KhaosDispatcher.php:89-96 | text passes the byte patterns exactly when it is the encoding of code points |
| Dispatcher.UnencodableIsAccepted | php/KhaosDispatcher.php:33-50 | updates with a NaN coordinate, or with text that is not UTF-8, are accepted although they cannot be encoded |
| Dispatcher.KhaosDispatcher.BuildRequest | php/KhaosDispatcher.php:73-87 | the request has one "WRITE" per buffered update, numbered from zero, with its rider and payload; it is well formed and translates to those writes |
| Dispatcher.SendRequest | php/KhaosDispatcher.php:106-164 | an answer means it was delivered, and the store and the responses are those of the writes one by one; an exception leaves the store of some of the writes, a lost request the store as it was; a reliable round trip is answered |
| Dispatcher.KhaosDispatcher.DispatchBatch | php/KhaosDispatcher.php:67-104 | empties the buffer only when answered, and then the store is that of all writes one by one; otherwise keeps it, with some of the writes done; a buffer with coordinates that are not finite or text that is not UTF-8 is never sent, any other is answered if the trip is reliable |
| Dispatcher.AttemptsAreLocal | php/KhaosDispatcher.php:67-104 | whatever a series of attempts did, riders outside the buffer are untouched |
| Dispatcher.EffectivelyOnce | README.md:86-92 | any number of attempts that got anywhere while the buffer grew, then an answered attempt whose last writes stand, leave the store of one delivery of the final buffer |
| Dispatcher.NoErrorsStand | README.md:92-92 | without failing calls the last writes always stand |
| Dispatcher.DeliveredExactly | php/KhaosDispatcher.php:98-103 | an answered batch leaves the intended store from every starting store if and only if, for each rider, the last write that succeeded carries the value of its last write |
| Dispatcher.AnsweredButLost | php/KhaosDispatcher.php:98-103 | a 200 answer with the error at its only item, although nothing was stored |
| Dispatcher.LoseUpdate | php/KhaosDispatcher.php:98-103 | the client takes that answer, error included, and its buffer is empty although nothing was stored |
| Dispatcher.DeliverInParts | README.md:88-92 | delivering two buffers one after the other is delivering their concatenation once |
| Dispatcher.NothingForgotten | README.md:88-92 | delivered and buffered updates are together exactly the accepted ones, in order |
| Dispatcher.Perform | php/KhaosDispatcher.php:67-104 | one add or dispatch advances buffer and store as the progress of the session says |
| Dispatcher.Session | README.md:86-92 | for any updates, failing calls, cut-short batches and lost messages: every rider without an update in the buffer, and whose last write stood in the last answered dispatch with an update of theirs, has what delivering the answered updates once, in order, gives; with an empty buffer and no stale rider the store is that of every accepted update delivered once |
| Dispatcher.StaleExactly | README.md:86-92 | a rider is stale if and only if, in the last answered dispatch of an update of theirs, the last write did not stand |
| Dispatcher.NoErrorsNoneStale | README.md:86-92 | riders become stale only through failing storage calls of answered dispatches |
| Dispatcher.PoisonedForGood | php/KhaosDispatcher.php:89-96 | once the buffer has an update that cannot be encoded, no later dispatch is answered and nothing more is delivered |

## Left out

- Scheduling is interleaving: in `BatchRun` one goroutine acts at a time, and the action granularity is that of the step table. A handler that gives up answers at once in the code; `Server.HandleBatch` describes the store when the workers have also ended.
- Taking the lock and storing the operation are one step, and so are a send, its counter updates and the close of the output channel: the lock protects all of them.
- A pool without a reorder buffer (workerpool.go:196), and the early return for an empty graph (workerpool.go:171-173): the handler always passes a buffer and answers empty requests itself (`Server.StartBatch`).
- Storage calls are atomic and a failed call changes nothing; the Go memory model, data races and the read/write distinction of the shard locks are assumed away.
- PostgreSQL, prepared statements and its status checks: only the effect is kept, one row per key that a write replaces and a delete of an absent row that changes nothing; `updated_at` is not modelled.
- Several HTTP batches on one store at the same time: the code gives no isolation, so one batch has the store to itself; a retry starts after the attempt before it has stopped touching the store.
- HTTP, JSON, timeouts as wall-clock values, configuration defaults and graceful shutdown: cancellation is a step that may happen at any time.
- SeqIDs are natural numbers: `int(op.SeqID)` at hazard.go:63 can only differ from the SeqID for values no slice index reaches.
- `Requests.ParseExact`: upper case is modelled as far as comparing with READ, WRITE and DELETE can tell, which includes the two non-ASCII letters whose upper case is an ASCII letter.
- Hash words are integers below 2^32 with explicit wrap-around, and the bitwise operators are defined bit by bit on them.
- `ExecutionState` labels and the `String` methods: never read by the scheduler.
- cURL and JSON failures of the client are one failed round trip; a buffer whose request exceeds the server's body limit (server.go:103-108), and so is rejected at every retry, is not modelled, and neither is floating-point rounding. The load simulator, metrics and latency claims are not modelled.
