/** The nodes of the hazard graph on the heap: Build, and what a worker does to a node. */
module DagNodes {
  import opened Operations
  import opened Hazards
  import opened Storage

  class DAGNode {
    var op: Operation
    var inDegree: int
    var dependents: seq<DAGNode>
    var done: bool

    constructor (op: Operation)
      ensures this.op == op && inDegree == 0 && dependents == [] && !done
    {
      this.op, inDegree, dependents, done := op, 0, [], false;
    }

    method AddDependency(dependent: DAGNode)
      modifies this`dependents, dependent`inDegree
      ensures dependents == old(dependents) + [dependent]
      ensures dependent.inDegree == old(dependent.inDegree) + 1
    {
      dependents := dependents + [dependent];
      dependent.inDegree := dependent.inDegree + 1;
    }

    /** Uninterrupted release: every dependent loses one per listing, and those whose counter passes
        through zero are returned, each exactly once and in the order in which they are listed. A second
        call would close `done` twice and panic. */
    method Release() returns (runnable: seq<DAGNode>)
      requires !done
      modifies this`done, dependents`inDegree
      ensures done && Subsequence(runnable, dependents)
      ensures forall d :: d in dependents ==> d.inDegree == old(d.inDegree) - multiset(dependents)[d]
      ensures forall d :: multiset(runnable)[d] ==
                if d in dependents && 1 <= old(d.inDegree) <= multiset(dependents)[d] then 1 else 0
    {
      runnable := [];
      for i := 0 to |dependents|
        invariant Subsequence(runnable, dependents[..i])
        invariant forall d :: d in dependents ==> d.inDegree == old(d.inDegree) - multiset(dependents[..i])[d]
        invariant forall d :: multiset(runnable)[d] ==
                    if d in dependents && 1 <= old(d.inDegree) <= multiset(dependents[..i])[d] then 1 else 0
      {
        var dep := dependents[i];
        OneMoreListed(dependents, i);
        OneMoreInOrder(runnable, dependents, i);
        dep.inDegree := dep.inDegree - 1;
        if dep.inDegree == 0 {
          runnable := runnable + [dep];
        }
      }
      assert dependents[..|dependents|] == dependents;
      done := true;
    }

    /** Perform the storage call and write Result and Err. The sharded map's calls fail exactly when
        the context has an error. */
    method Execute(ctxErr: Option<string>, storage: ShardedMap)
      requires storage.Valid()
      modifies this`op, storage.shards
      ensures storage.Valid()
      ensures op == old(op).(result := op.result, err := op.err)
      ensures old(op).typ.OpUnknown? ==> op == old(op).(err := Some(UNKNOWN_TYPE))
      ensures ctxErr.Some? && old(op).Known() ==> op == old(op).(err := ctxErr)
      ensures ctxErr.Some? || !old(op).Mutates() ==> storage.Contents() == old(storage.Contents())
      ensures ctxErr == None && old(op).Known() ==> op.err == old(op.err)
      ensures ctxErr == None && old(op).typ.OpRead? ==>
                op.result == if op.key in storage.Contents() then storage.Contents()[op.key] else old(op.result)
      ensures ctxErr == None && old(op).typ.OpWrite? ==>
                op.result == op.value && storage.Contents() == old(storage.Contents())[op.key := op.value]
      ensures ctxErr == None && old(op).typ.OpDelete? ==>
                op.result == old(op.result) && storage.Contents() == old(storage.Contents()) - {op.key}
      ensures op == Answer(old(op), old(storage.Contents()), ctxErr)
      ensures storage.Contents() == Effect(old(op), old(storage.Contents()), ctxErr)
    {
      match op.typ {
        case OpRead =>
          var value, found, err := storage.Get(ctxErr, op.key);
          if err.Some? {
            op := op.(err := err);
            return;
          }
          if found {
            op := op.(result := value);
          }
        case OpWrite =>
          var err := storage.Set(ctxErr, op.key, op.value);
          if err.Some? {
            op := op.(err := err);
            return;
          }
          op := op.(result := op.value);
        case OpDelete =>
          var err := storage.Delete(ctxErr, op.key);
          if err.Some? {
            op := op.(err := err);
          }
        case OpUnknown(_) =>
          op := op.(err := Some(UNKNOWN_TYPE));
      }
    }
  }

  /** The first sequence is the second with some elements left out. */
  ghost predicate Subsequence(some: seq<DAGNode>, all: seq<DAGNode>)
    decreases |all|
  {
    some == [] ||
    (all != [] &&
      var rest := all[..|all|-1];
      Subsequence(some, rest) || (some[|some|-1] == all[|all|-1] && Subsequence(some[..|some|-1], rest)))
  }

  lemma {:induction false} OneMoreInOrder(some: seq<DAGNode>, all: seq<DAGNode>, i: nat)
    requires i < |all| && Subsequence(some, all[..i])
    ensures Subsequence(some, all[..i+1]) && Subsequence(some + [all[i]], all[..i+1])
  {
    assert all[..i+1][..i] == all[..i];
    assert (some + [all[i]])[..|some|] == some;
  }

  lemma OneMoreListed(nodes: seq<DAGNode>, i: nat)
    requires i < |nodes|
    ensures forall d :: multiset(nodes[..i+1])[d] == multiset(nodes[..i])[d] + if d == nodes[i] then 1 else 0
  {
    assert nodes[..i+1] == nodes[..i] + [nodes[i]];
  }

  // ----- Build -----

  datatype BuildError =
    | NotDense(position: nat, seqId: nat)
    | UnknownType(seqId: nat, code: nat)

  ghost predicate AllDistinct(all: seq<DAGNode>) {
    forall a, b :: 0 <= a < b < |all| ==> all[a] != all[b]
  }

  /** `nodes` are the nodes at the given positions. */
  ghost predicate Points(all: seq<DAGNode>, nodes: seq<DAGNode>, positions: seq<nat>) {
    |nodes| == |positions| &&
    forall k {:trigger nodes[k]} {:trigger positions[k]} ::
      0 <= k < |nodes| ==> positions[k] < |all| && nodes[k] == all[positions[k]]
  }

  /** The nodes carry the operations of the batch, with these dependents (by position) and in-degrees. */
  ghost predicate Holds(batch: seq<Operation>, all: seq<DAGNode>, lists: seq<seq<nat>>, degrees: seq<nat>)
    reads all
  {
    && |all| == |lists| == |degrees| <= |batch| && AllDistinct(all)
    && (forall i {:trigger all[i].op} {:trigger all[i].done} ::
          0 <= i < |all| ==> all[i].op == batch[i] && !all[i].done)
    && (forall i {:trigger lists[i]} {:trigger all[i].dependents} ::
          0 <= i < |all| ==> Points(all, all[i].dependents, lists[i]))
    && (forall i {:trigger degrees[i]} {:trigger all[i].inDegree} ::
          0 <= i < |all| ==> all[i].inDegree == degrees[i])
  }

  /** The dependents of the first n positions among themselves. */
  ghost function Lists(batch: seq<Operation>, n: nat): (lists: seq<seq<nat>>)
    ensures |lists| == n
    ensures forall i :: 0 <= i < n ==> lists[i] == Dependents(batch, i, n)
  {
    seq(n, i requires 0 <= i < n => Dependents(batch, i, n))
  }

  ghost function Degrees(batch: seq<Operation>, n: nat): (degrees: seq<nat>)
    ensures |degrees| == n
    ensures forall i :: 0 <= i < n ==> degrees[i] == |Predecessors(batch, i)|
  {
    seq(n, i requires 0 <= i < n => |Predecessors(batch, i)|)
  }

  /** The nodes carry the batch and exactly its hazard edges, each once, with matching in-degrees. */
  ghost predicate Wired(batch: seq<Operation>, all: seq<DAGNode>)
    reads all
  {
    |all| == |batch| && Holds(batch, all, Lists(batch, |batch|), Degrees(batch, |batch|))
  }

  /** Wired, in terms of the nodes alone. */
  lemma WiredEdges(batch: seq<Operation>, all: seq<DAGNode>, i: nat, j: nat)
    requires Wired(batch, all) && i < |all| && j < |all|
    ensures multiset(all[i].dependents)[all[j]] == if Edge(batch, i, j) then 1 else 0
    ensures all[j].inDegree == |Predecessors(batch, j)|
  {
    CountPoints(all, all[i].dependents, Dependents(batch, i, |batch|), j);
    DependentsOnce(batch, i, |batch|, j);
  }

  /** How many dependents the first n nodes list. */
  function ListedTotal(all: seq<DAGNode>, n: nat): nat
    requires n <= |all|
    reads all
  {
    if n == 0 then 0 else ListedTotal(all, n - 1) + |all[n-1].dependents|
  }

  lemma {:induction false} ListedCount(batch: seq<Operation>, all: seq<DAGNode>, n: nat)
    requires Wired(batch, all) && n <= |all|
    ensures ListedTotal(all, n) == DependentsTotal(batch, n)
  {
    if n > 0 {
      ListedCount(batch, all, n - 1);
      assert Points(all, all[n-1].dependents, Lists(batch, |batch|)[n-1]);
    }
  }

  /** The nodes that Build made list one dependent per edge, at most one per operation plus one per read. */
  lemma {:induction false} ListedBound(batch: seq<Operation>, all: seq<DAGNode>)
    requires Wired(batch, all) && Buildable(batch, |batch|)
    ensures ListedTotal(all, |all|) == |Edges(batch)| <= |batch| + |Reads(batch)| <= 2 * |batch|
  {
    ListedCount(batch, all, |all|);
    DependentsTotalIsEdges(batch);
    EdgeBound(batch);
  }

  lemma {:induction false} CountPoints(all: seq<DAGNode>, nodes: seq<DAGNode>, positions: seq<nat>, j: nat)
    requires AllDistinct(all) && j < |all| && Points(all, nodes, positions)
    ensures multiset(nodes)[all[j]] == multiset(positions)[j]
  {
    if positions != [] {
      var n := |positions| - 1;
      CountPoints(all, nodes[..n], positions[..n], j);
      assert positions == positions[..n] + [positions[n]];
      assert nodes == nodes[..n] + [nodes[n]];
    }
  }

  /** `later` is `lists` with n appended at each position in `wired`. */
  ghost predicate Appended(lists: seq<seq<nat>>, later: seq<seq<nat>>, wired: seq<nat>, n: nat) {
    |later| == |lists| &&
    forall i :: 0 <= i < |lists| ==> later[i] == if i in wired then lists[i] + [n] else lists[i]
  }

  /** Appending n at its predecessors turns the lists for n positions into those for n + 1. */
  lemma NextLists(batch: seq<Operation>, n: nat, later: seq<seq<nat>>, wired: seq<nat>)
    requires Appended(Lists(batch, n) + [[]], later, wired, n)
    requires forall i :: 0 <= i <= n ==> (i in wired <==> i in Predecessors(batch, n))
    ensures later == Lists(batch, n + 1)
  {
    NoneBefore(batch, n);
    forall i | 0 <= i < n + 1
      ensures later[i] == Dependents(batch, i, n + 1)
    {
      assert i in wired <==> Edge(batch, i, n);
    }
  }

  lemma NoneBefore(batch: seq<Operation>, n: nat)
    ensures Dependents(batch, n, n + 1) == []
  {
    NoneUpTo(batch, n, n + 1);
  }

  lemma {:induction false} NoneUpTo(batch: seq<Operation>, i: nat, n: nat)
    requires n <= i + 1
    ensures Dependents(batch, i, n) == []
  {
    if n > 0 {
      NoneUpTo(batch, i, n - 1);
    }
  }

  ghost function AppendAt(lists: seq<seq<nat>>, a: nat, n: nat): seq<seq<nat>>
    requires a < |lists|
  {
    lists[a := lists[a] + [n]]
  }

  ghost function RaiseAt(degrees: seq<nat>, n: nat): seq<nat>
    requires n < |degrees|
  {
    degrees[n := degrees[n] + 1]
  }

  /** One call of AddDependency, from position a to the last node. */
  method Wire(w: DAGNode, node: DAGNode, ghost batch: seq<Operation>, ghost all: seq<DAGNode>,
              ghost n: nat, ghost lists: seq<seq<nat>>, ghost degrees: seq<nat>, ghost a: nat)
    requires |all| == n + 1 && node == all[n] && Holds(batch, all, lists, degrees)
    requires a < n && w == all[a]
    modifies w`dependents, node`inDegree
    ensures Holds(batch, all, AppendAt(lists, a, n), RaiseAt(degrees, n))
  {
    w.AddDependency(node);
  }

  /** `counted` is `degrees` with the last entry, at n, raised by p. */
  ghost predicate Counted(degrees: seq<nat>, counted: seq<nat>, n: nat, p: nat) {
    && n < |degrees| == |counted| && counted[n] == degrees[n] + p
    && forall i :: 0 <= i < |degrees| && i != n ==> counted[i] == degrees[i]
  }

  lemma AppendedStep(lists: seq<seq<nat>>, later: seq<seq<nat>>, positions: seq<nat>, p: nat, n: nat)
    requires p < |positions| && NoRepeats(positions) && Within(positions, |lists|)
    requires Appended(lists, later, positions[..p], n)
    ensures Appended(lists, AppendAt(later, positions[p], n), positions[..p+1], n)
    ensures later[positions[p]] == lists[positions[p]]
  {
    assert positions[p] !in positions[..p];
    assert positions[..p+1] == positions[..p] + [positions[p]];
  }

  /** The inner loop of Build over the readers since the last write (WAR). */
  method WireReaders(readers: seq<DAGNode>, node: DAGNode, ghost batch: seq<Operation>, ghost all: seq<DAGNode>,
                     ghost n: nat, ghost lists: seq<seq<nat>>, ghost degrees: seq<nat>, ghost positions: seq<nat>)
    returns (ghost later: seq<seq<nat>>, ghost counted: seq<nat>)
    requires |all| == n + 1 && node == all[n] && Holds(batch, all, lists, degrees)
    requires Within(positions, n) && NoRepeats(positions) && Points(all, readers, positions)
    modifies all
    ensures Appended(lists, later, positions, n) && Counted(degrees, counted, n, |positions|)
    ensures Holds(batch, all, later, counted)
  {
    later, counted := lists, degrees;
    for p := 0 to |readers|
      invariant Appended(lists, later, positions[..p], n) && Counted(degrees, counted, n, p)
      invariant Holds(batch, all, later, counted)
    {
      AppendedStep(lists, later, positions, p, n);
      Wire(readers[p], node, batch, all, n, later, counted, positions[p]);
      later, counted := AppendAt(later, positions[p], n), RaiseAt(counted, n);
    }
    assert positions[..|readers|] == positions;
  }

  /** The positions below n with in-degree zero, ascending. */
  ghost function Zeros(degrees: seq<nat>, n: nat): seq<nat>
    requires n <= |degrees|
  {
    if n == 0 then []
    else if degrees[n-1] == 0 then Zeros(degrees, n - 1) + [n - 1]
    else Zeros(degrees, n - 1)
  }

  lemma {:induction false} ZerosAreRoots(batch: seq<Operation>, n: nat)
    requires n <= |batch|
    ensures Zeros(Degrees(batch, |batch|), n) == Roots(batch, n)
  {
    if n > 0 {
      ZerosAreRoots(batch, n - 1);
    }
  }

  /** The last loop of Build. */
  method FindRunnable(all: seq<DAGNode>, ghost batch: seq<Operation>) returns (runnable: seq<DAGNode>)
    requires Wired(batch, all)
    ensures Points(all, runnable, Roots(batch, |batch|))
  {
    ghost var degrees := Degrees(batch, |batch|);
    runnable := [];
    for i := 0 to |all|
      invariant Points(all, runnable, Zeros(degrees, i))
    {
      assert all[i].inDegree == degrees[i];
      if all[i].inDegree == 0 {
        runnable := runnable + [all[i]];
      }
    }
    ZerosAreRoots(batch, |batch|);
  }

  // ----- the two running maps of Build, by position -----

  /** `writes` has the latest mutation of each key below n. */
  ghost predicate TracksWrites(batch: seq<Operation>, n: nat, writes: map<Key, nat>)
    requires n <= |batch|
  {
    && (forall k :: k in writes ==>
          writes[k] < n && WritesKey(batch, writes[k], k) && Undisturbed(batch, k, writes[k], n))
    && (forall m, k :: 0 <= m < n && WritesKey(batch, m, k) ==> k in writes)
  }

  /** `pending` has the reads below n of each key since its latest mutation. */
  ghost predicate TracksReads(batch: seq<Operation>, n: nat, pending: map<Key, seq<nat>>)
    requires n <= |batch|
  {
    && (forall k :: Within(GetReads(pending, k), n) && NoRepeats(GetReads(pending, k)))
    && (forall k, r :: 0 <= r < n ==> (r in GetReads(pending, k) <==> PendingRead(batch, n, k, r)))
  }

  ghost predicate Tracks(batch: seq<Operation>, n: nat, writes: map<Key, nat>, pending: map<Key, seq<nat>>)
    requires n <= |batch|
  {
    TracksWrites(batch, n, writes) && TracksReads(batch, n, pending)
  }

  ghost predicate PendingRead(batch: seq<Operation>, n: nat, key: Key, r: nat)
    requires r < n <= |batch|
  {
    batch[r].key == key && !batch[r].Mutates() && Undisturbed(batch, key, r, n)
  }

  ghost predicate NoRepeats(s: seq<nat>) {
    forall a, b :: 0 <= a < b < |s| ==> s[a] != s[b]
  }

  function GetReads<T>(pending: map<Key, seq<T>>, key: Key): seq<T> {
    if key in pending then pending[key] else []
  }

  /** The maps hold exactly what position n has to wait for. */
  lemma TrackedPredecessors(batch: seq<Operation>, n: nat, writes: map<Key, nat>,
                            pending: map<Key, seq<nat>>)
    requires n < |batch| && Tracks(batch, n, writes, pending)
    ensures var k := batch[n].key;
            var last := if k in writes then {writes[k]} else {};
            var readers := set r | r in GetReads(pending, k);
            && last !! readers
            && Predecessors(batch, n) == if batch[n].Mutates() then last + readers else last
  {
    var k := batch[n].key;
    var last := if k in writes then {writes[k]} else {};
    var readers := set r | r in GetReads(pending, k);
    var preds := if batch[n].Mutates() then last + readers else last;
    forall i | i in Predecessors(batch, n)
      ensures i in preds
    {
      assert Edge(batch, i, n);
      if batch[i].Mutates() {
        assert WritesKey(batch, i, k);
        assert i == writes[k];
      } else {
        assert PendingRead(batch, n, k, i);
      }
    }
    forall i | i in preds
      ensures i in Predecessors(batch, n)
    {
      if i in last {
        assert Edge(batch, i, n);
      } else {
        assert i < n && PendingRead(batch, n, k, i);
        assert Edge(batch, i, n);
      }
    }
  }

  /** A position that does not mutate `key` leaves everything about `key` as it is. */
  lemma StillUndisturbed(batch: seq<Operation>, n: nat, key: Key, i: nat)
    requires i < n < |batch| && !WritesKey(batch, n, key)
    ensures Undisturbed(batch, key, i, n + 1) == Undisturbed(batch, key, i, n)
    ensures PendingRead(batch, n + 1, key, i) == PendingRead(batch, n, key, i)
  {
  }

  lemma TrackRead(batch: seq<Operation>, n: nat, writes: map<Key, nat>, pending: map<Key, seq<nat>>)
    requires n < |batch| && Tracks(batch, n, writes, pending) && !batch[n].Mutates()
    ensures var k := batch[n].key; Tracks(batch, n + 1, writes, pending[k := GetReads(pending, k) + [n]])
  {
    forall k | k in writes
      ensures Undisturbed(batch, k, writes[k], n + 1)
    {
      StillUndisturbed(batch, n, k, writes[k]);
    }
    TrackReadReads(batch, n, pending);
  }

  lemma TrackReadReads(batch: seq<Operation>, n: nat, pending: map<Key, seq<nat>>)
    requires n < |batch| && TracksReads(batch, n, pending) && !batch[n].Mutates()
    ensures var k := batch[n].key; TracksReads(batch, n + 1, pending[k := GetReads(pending, k) + [n]])
  {
    var key := batch[n].key;
    var later := pending[key := GetReads(pending, key) + [n]];
    forall k: Key
      ensures Within(GetReads(later, k), n + 1) && NoRepeats(GetReads(later, k))
    {
      assert Within(GetReads(pending, k), n) && NoRepeats(GetReads(pending, k));
    }
    forall k, r | 0 <= r < n + 1
      ensures r in GetReads(later, k) <==> PendingRead(batch, n + 1, k, r)
    {
      assert Within(GetReads(pending, k), n);
      if r < n {
        StillUndisturbed(batch, n, k, r);
      }
    }
  }

  lemma TrackWrite(batch: seq<Operation>, n: nat, writes: map<Key, nat>, pending: map<Key, seq<nat>>)
    requires n < |batch| && Tracks(batch, n, writes, pending) && batch[n].Mutates()
    ensures var k := batch[n].key; Tracks(batch, n + 1, writes[k := n], pending[k := []])
  {
    var key := batch[n].key;
    assert WritesKey(batch, n, key);
    forall k | k in writes && k != key
      ensures Undisturbed(batch, k, writes[k], n + 1)
    {
      StillUndisturbed(batch, n, k, writes[k]);
    }
    TrackWriteReads(batch, n, pending);
  }

  lemma TrackWriteReads(batch: seq<Operation>, n: nat, pending: map<Key, seq<nat>>)
    requires n < |batch| && TracksReads(batch, n, pending) && batch[n].Mutates()
    ensures TracksReads(batch, n + 1, pending[batch[n].key := []])
  {
    var key := batch[n].key;
    var later := pending[key := []];
    assert WritesKey(batch, n, key);
    forall k: Key
      ensures Within(GetReads(later, k), n + 1) && NoRepeats(GetReads(later, k))
    {
      assert Within(GetReads(pending, k), n) && NoRepeats(GetReads(pending, k));
    }
    forall k, r | 0 <= r < n + 1
      ensures r in GetReads(later, k) <==> PendingRead(batch, n + 1, k, r)
    {
      assert Within(GetReads(pending, k), n);
      if k != key && r < n {
        StillUndisturbed(batch, n, k, r);
      }
    }
  }

  /** The two maps of nodes stand for the maps of positions. */
  ghost predicate MapsPoint(all: seq<DAGNode>, lastWrite: map<Key, DAGNode>, lastReads: map<Key, seq<DAGNode>>,
                            writes: map<Key, nat>, pending: map<Key, seq<nat>>)
  {
    && lastWrite.Keys == writes.Keys
    && (forall k :: k in writes ==> writes[k] < |all| && lastWrite[k] == all[writes[k]])
    && (forall k :: Points(all, GetReads(lastReads, k), GetReads(pending, k)))
  }

  lemma NodeAdded(batch: seq<Operation>, before: seq<DAGNode>, node: DAGNode, n: nat)
    requires |before| == n < |batch| && node !in before
    requires Holds(batch, before, Lists(batch, n), Degrees(batch, n))
    requires node.op == batch[n] && node.inDegree == 0 && node.dependents == [] && !node.done
    ensures Holds(batch, before + [node], Lists(batch, n) + [[]], Degrees(batch, n) + [0])
  {
    var all, lists := before + [node], Lists(batch, n) + [[]];
    forall i | 0 <= i < |all|
      ensures Points(all, all[i].dependents, lists[i])
    {
      if i < n {
        assert Points(before, all[i].dependents, lists[i]);
      }
    }
  }

  lemma {:induction false} PositionsCount(s: seq<nat>, elements: set<nat>)
    requires NoRepeats(s) && forall i :: i in elements <==> i in s
    ensures |elements| == |s|
  {
    if s != [] {
      var n := |s| - 1;
      assert s == s[..n] + [s[n]];
      PositionsCount(s[..n], elements - {s[n]});
      assert elements == (elements - {s[n]}) + {s[n]};
    } else {
      assert elements == {};
    }
  }

  /** Once n is appended at exactly its predecessors, lists and in-degrees are those of n + 1 positions. */
  lemma WiringComplete(batch: seq<Operation>, n: nat, later: seq<seq<nat>>, counted: seq<nat>,
                       wired: seq<nat>)
    requires Appended(Lists(batch, n) + [[]], later, wired, n)
    requires Counted(Degrees(batch, n) + [0], counted, n, |wired|)
    requires NoRepeats(wired) && forall i :: i in wired <==> i in Predecessors(batch, n)
    ensures later == Lists(batch, n + 1) && counted == Degrees(batch, n + 1)
  {
    NextLists(batch, n, later, wired);
    PositionsCount(wired, Predecessors(batch, n));
  }

  lemma AppendedTwice(lists: seq<seq<nat>>, middle: seq<seq<nat>>, later: seq<seq<nat>>,
                      first: seq<nat>, second: seq<nat>, n: nat)
    requires Appended(lists, middle, first, n) && Appended(middle, later, second, n)
    requires forall i :: i in first ==> i !in second
    ensures Appended(lists, later, first + second, n)
  {
  }

  /** The two maps give the last node its predecessors: `last` the latest mutation, if any, and
      `readers` the reads since then. */
  ghost predicate Located(batch: seq<Operation>, all: seq<DAGNode>,
                          lastWrite: map<Key, DAGNode>, lastReads: map<Key, seq<DAGNode>>,
                          last: seq<nat>, readers: seq<nat>)
    requires 0 < |all| <= |batch|
  {
    var n := |all| - 1;
    var key := batch[n].key;
    && Within(last, n) && Within(readers, n)
    && NoRepeats(last) && NoRepeats(readers) && NoRepeats(last + readers) && (forall i :: i in last ==> i !in readers)
    && (if key in lastWrite then |last| == 1 && lastWrite[key] == all[last[0]] else last == [])
    && Points(all, GetReads(lastReads, key), readers)
    && (forall i :: i in Predecessors(batch, n) <==> i in if batch[n].Mutates() then last + readers else last)
  }

  lemma Locate(batch: seq<Operation>, all: seq<DAGNode>,
               lastWrite: map<Key, DAGNode>, lastReads: map<Key, seq<DAGNode>>,
               writes: map<Key, nat>, pending: map<Key, seq<nat>>)
    returns (last: seq<nat>, readers: seq<nat>)
    requires 0 < |all| <= |batch|
    requires Tracks(batch, |all| - 1, writes, pending)
    requires MapsPoint(all, lastWrite, lastReads, writes, pending)
    ensures Located(batch, all, lastWrite, lastReads, last, readers)
  {
    var n := |all| - 1;
    var key := batch[n].key;
    last := if key in writes then [writes[key]] else [];
    readers := GetReads(pending, key);
    assert Points(all, GetReads(lastReads, key), readers);
    LocateIndices(batch, n, writes, pending, last, readers);
  }

  lemma LocateIndices(batch: seq<Operation>, n: nat,
                      writes: map<Key, nat>, pending: map<Key, seq<nat>>,
                      last: seq<nat>, readers: seq<nat>)
    requires n < |batch| && Tracks(batch, n, writes, pending)
    requires last == if batch[n].key in writes then [writes[batch[n].key]] else []
    requires readers == GetReads(pending, batch[n].key)
    ensures Within(last, n) && Within(readers, n)
    ensures NoRepeats(last) && NoRepeats(readers) && NoRepeats(last + readers)
    ensures forall i :: i in last ==> i !in readers
    ensures forall i :: i in Predecessors(batch, n) <==> i in if batch[n].Mutates() then last + readers else last
  {
    TrackedPredecessors(batch, n, writes, pending);
    assert Within(readers, n) && NoRepeats(readers);
    forall i | i in last
      ensures i !in readers
    {
    }
    NoRepeatsConcat(last, readers);
  }

  lemma NoRepeatsConcat(a: seq<nat>, b: seq<nat>)
    requires NoRepeats(a) && NoRepeats(b) && forall i :: i in a ==> i !in b
    ensures NoRepeats(a + b)
  {
    forall i, j | 0 <= i < j < |a + b|
      ensures (a + b)[i] != (a + b)[j]
    {
      if i < |a| <= j {
        assert a[i] in a && b[j - |a|] in b;
      }
    }
  }

  /** The edge from the latest mutation of the key, if there is one (RAW or WAW). */
  method WireLast(node: DAGNode, lastWrite: map<Key, DAGNode>, ghost batch: seq<Operation>, ghost all: seq<DAGNode>,
                  ghost n: nat, ghost lists: seq<seq<nat>>, ghost degrees: seq<nat>, ghost last: seq<nat>)
    returns (ghost later: seq<seq<nat>>, ghost counted: seq<nat>)
    requires |all| == n + 1 && node == all[n] && Holds(batch, all, lists, degrees)
    requires if node.op.key in lastWrite then |last| == 1 && last[0] < n && lastWrite[node.op.key] == all[last[0]]
             else last == []
    modifies all
    ensures Appended(lists, later, last, n) && Counted(degrees, counted, n, |last|)
    ensures Holds(batch, all, later, counted)
  {
    if node.op.key in lastWrite {
      Wire(lastWrite[node.op.key], node, batch, all, n, lists, degrees, last[0]);
      later, counted := AppendAt(lists, last[0], n), RaiseAt(degrees, n);
    } else {
      later, counted := lists, degrees;
    }
  }

  lemma CountedTwice(degrees: seq<nat>, middle: seq<nat>, counted: seq<nat>, n: nat, p: nat, q: nat)
    requires Counted(degrees, middle, n, p) && Counted(middle, counted, n, q)
    ensures Counted(degrees, counted, n, p + q)
  {
  }

  /** The edges Build adds for one operation, found through the two maps. */
  method WireOperation(node: DAGNode, lastWrite: map<Key, DAGNode>, lastReads: map<Key, seq<DAGNode>>,
                       ghost batch: seq<Operation>, ghost all: seq<DAGNode>, ghost n: nat,
                       ghost last: seq<nat>, ghost readers: seq<nat>)
    requires n < |batch| && |all| == n + 1 && node == all[n]
    requires Located(batch, all, lastWrite, lastReads, last, readers)
    requires Holds(batch, all, Lists(batch, n) + [[]], Degrees(batch, n) + [0])
    modifies all
    ensures Holds(batch, all, Lists(batch, n + 1), Degrees(batch, n + 1))
  {
    ghost var lists, degrees := Lists(batch, n) + [[]], Degrees(batch, n) + [0];
    ghost var later, counted := WireLast(node, lastWrite, batch, all, n, lists, degrees, last);
    if node.op.Mutates() {
      ghost var later', counted' :=
        WireReaders(GetReads(lastReads, node.op.key), node, batch, all, n, later, counted, readers);
      AppendedTwice(lists, later, later', last, readers, n);
      CountedTwice(degrees, counted, counted', n, |last|, |readers|);
      WiringComplete(batch, n, later', counted', last + readers);
    } else {
      WiringComplete(batch, n, later, counted, last);
    }
  }

  lemma MapsAfterRead(all: seq<DAGNode>, node: DAGNode, key: Key,
                      lastWrite: map<Key, DAGNode>, lastReads: map<Key, seq<DAGNode>>,
                      writes: map<Key, nat>, pending: map<Key, seq<nat>>)
    requires MapsPoint(all, lastWrite, lastReads, writes, pending) && all != [] && all[|all|-1] == node
    ensures MapsPoint(all, lastWrite, lastReads[key := GetReads(lastReads, key) + [node]],
                      writes, pending[key := GetReads(pending, key) + [|all| - 1]])
  {
    var lastReads' := lastReads[key := GetReads(lastReads, key) + [node]];
    var pending' := pending[key := GetReads(pending, key) + [|all| - 1]];
    forall k: Key
      ensures Points(all, GetReads(lastReads', k), GetReads(pending', k))
    {
      assert Points(all, GetReads(lastReads, k), GetReads(pending, k));
      if k == key {
        PointsGrow(all, GetReads(lastReads, k), GetReads(pending, k), |all| - 1);
      }
    }
  }

  lemma PointsGrow(all: seq<DAGNode>, nodes: seq<DAGNode>, positions: seq<nat>, n: nat)
    requires Points(all, nodes, positions) && n < |all|
    ensures Points(all, nodes + [all[n]], positions + [n])
  {
  }

  lemma MapsAfterWrite(all: seq<DAGNode>, node: DAGNode, key: Key,
                       lastWrite: map<Key, DAGNode>, lastReads: map<Key, seq<DAGNode>>,
                       writes: map<Key, nat>, pending: map<Key, seq<nat>>)
    requires MapsPoint(all, lastWrite, lastReads, writes, pending) && all != [] && all[|all|-1] == node
    ensures MapsPoint(all, lastWrite[key := node], lastReads[key := []], writes[key := |all| - 1], pending[key := []])
  {
    var lastReads', pending' := lastReads[key := []], pending[key := []];
    forall k: Key
      ensures Points(all, GetReads(lastReads', k), GetReads(pending', k))
    {
      assert Points(all, GetReads(lastReads, k), GetReads(pending, k));
    }
  }

  lemma MapsGrow(before: seq<DAGNode>, node: DAGNode,
                 lastWrite: map<Key, DAGNode>, lastReads: map<Key, seq<DAGNode>>,
                 writes: map<Key, nat>, pending: map<Key, seq<nat>>)
    requires MapsPoint(before, lastWrite, lastReads, writes, pending)
    ensures MapsPoint(before + [node], lastWrite, lastReads, writes, pending)
  {
    forall k: Key
      ensures Points(before + [node], GetReads(lastReads, k), GetReads(pending, k))
    {
      assert Points(before, GetReads(lastReads, k), GetReads(pending, k));
    }
  }

  /** What Build has after the first n operations. */
  ghost predicate Built(batch: seq<Operation>, n: nat, all: seq<DAGNode>,
                        lastWrite: map<Key, DAGNode>, lastReads: map<Key, seq<DAGNode>>,
                        writes: map<Key, nat>, pending: map<Key, seq<nat>>)
    requires n <= |batch|
    reads all
  {
    && |all| == n
    && Holds(batch, all, Lists(batch, n), Degrees(batch, n))
    && Recorded(batch, n, all, lastWrite, lastReads, writes, pending)
  }

  /** The two maps, on the heap and by position, are right for the first n operations. */
  ghost predicate Recorded(batch: seq<Operation>, n: nat, all: seq<DAGNode>,
                           lastWrite: map<Key, DAGNode>, lastReads: map<Key, seq<DAGNode>>,
                           writes: map<Key, nat>, pending: map<Key, seq<nat>>)
    requires n <= |batch|
  {
    Tracks(batch, n, writes, pending) && MapsPoint(all, lastWrite, lastReads, writes, pending)
  }

  lemma AfterRead(batch: seq<Operation>, n: nat, all: seq<DAGNode>, node: DAGNode,
                  lastWrite: map<Key, DAGNode>, lastReads: map<Key, seq<DAGNode>>,
                  writes: map<Key, nat>, pending: map<Key, seq<nat>>)
    requires n < |batch| && !batch[n].Mutates() && |all| == n + 1 && node == all[n]
    requires Recorded(batch, n, all, lastWrite, lastReads, writes, pending)
    ensures var key := batch[n].key;
            Recorded(batch, n + 1, all, lastWrite, lastReads[key := GetReads(lastReads, key) + [node]],
                     writes, pending[key := GetReads(pending, key) + [n]])
  {
    MapsAfterRead(all, node, batch[n].key, lastWrite, lastReads, writes, pending);
    TrackRead(batch, n, writes, pending);
  }

  lemma AfterWrite(batch: seq<Operation>, n: nat, all: seq<DAGNode>, node: DAGNode,
                   lastWrite: map<Key, DAGNode>, lastReads: map<Key, seq<DAGNode>>,
                   writes: map<Key, nat>, pending: map<Key, seq<nat>>)
    requires n < |batch| && batch[n].Mutates() && |all| == n + 1 && node == all[n]
    requires Recorded(batch, n, all, lastWrite, lastReads, writes, pending)
    ensures var key := batch[n].key;
            Recorded(batch, n + 1, all, lastWrite[key := node], lastReads[key := []],
                     writes[key := n], pending[key := []])
  {
    MapsAfterWrite(all, node, batch[n].key, lastWrite, lastReads, writes, pending);
    TrackWrite(batch, n, writes, pending);
  }

  /** One turn of Build's loop, for an operation of a known type at its place. */
  method AddOperation(op: Operation, nodes: seq<DAGNode>,
                      writesBefore: map<Key, DAGNode>, readsBefore: map<Key, seq<DAGNode>>,
                      ghost batch: seq<Operation>, ghost n: nat,
                      ghost writes: map<Key, nat>, ghost pending: map<Key, seq<nat>>)
    returns (all: seq<DAGNode>, lastWrite: map<Key, DAGNode>, lastReads: map<Key, seq<DAGNode>>,
             ghost writes': map<Key, nat>, ghost pending': map<Key, seq<nat>>)
    requires n < |batch| && op == batch[n] && op.Known()
    requires Built(batch, n, nodes, writesBefore, readsBefore, writes, pending)
    modifies nodes
    ensures |all| == n + 1 && nodes == all[..n] && fresh(all[n])
    ensures Built(batch, n + 1, all, lastWrite, lastReads, writes', pending')
  {
    var node := new DAGNode(op);
    NodeAdded(batch, nodes, node, n);
    MapsGrow(nodes, node, writesBefore, readsBefore, writes, pending);
    all := nodes + [node];
    ghost var last, readers := Locate(batch, all, writesBefore, readsBefore, writes, pending);
    WireOperation(node, writesBefore, readsBefore, batch, all, n, last, readers);
    if op.typ.OpRead? {
      AfterRead(batch, n, all, node, writesBefore, readsBefore, writes, pending);
      lastWrite := writesBefore;
      lastReads := readsBefore[op.key := GetReads(readsBefore, op.key) + [node]];
      writes', pending' := writes, pending[op.key := GetReads(pending, op.key) + [n]];
    } else {
      AfterWrite(batch, n, all, node, writesBefore, readsBefore, writes, pending);
      lastWrite := writesBefore[op.key := node];
      lastReads := readsBefore[op.key := []];
      writes', pending' := writes[op.key := n], pending[op.key := []];
    }
  }

  /** Build succeeds exactly on dense batches of known operation types; otherwise it reports the first
      offending position. The nodes then carry exactly the hazard edges, and `runnable` is the roots. */
  method Build(batch: seq<Operation>) returns (all: seq<DAGNode>, runnable: seq<DAGNode>, err: Option<BuildError>)
    ensures err == None <==> Buildable(batch, |batch|)
    ensures err == None ==> fresh(all) && Wired(batch, all)
    ensures err == None ==> Points(all, runnable, Roots(batch, |batch|))
    ensures forall i :: 0 <= i < |batch| && Buildable(batch, i) && batch[i].seqId != i ==>
              err == Some(NotDense(i, batch[i].seqId))
    ensures forall i :: 0 <= i < |batch| && Buildable(batch, i) && batch[i].seqId == i && batch[i].typ.OpUnknown? ==>
              err == Some(UnknownType(i, batch[i].typ.code))
  {
    all, runnable, err := [], [], None;
    var lastWrite: map<Key, DAGNode> := map[];
    var lastReads: map<Key, seq<DAGNode>> := map[];
    ghost var writes: map<Key, nat> := map[];
    ghost var pending: map<Key, seq<nat>> := map[];
    for i := 0 to |batch|
      invariant fresh(all) && Buildable(batch, i)
      invariant Built(batch, i, all, lastWrite, lastReads, writes, pending)
    {
      var op := batch[i];
      if op.seqId != i {
        return [], [], Some(NotDense(i, op.seqId));
      }
      if op.typ.OpUnknown? {
        return [], [], Some(UnknownType(i, op.typ.code));
      }
      all, lastWrite, lastReads, writes, pending :=
        AddOperation(op, all, lastWrite, lastReads, batch, i, writes, pending);
    }
    runnable := FindRunnable(all, batch);
  }
}
