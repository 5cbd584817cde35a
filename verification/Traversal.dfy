/** The breadth-first search that counts the nodes of a run, and what Run sets up before its workers start. */
module Traversal {
  import opened Operations
  import opened Hazards
  import opened DagNodes

  ghost predicate Closed(s: set<DAGNode>)
    reads s
  {
    forall n :: n in s ==> forall k :: 0 <= k < |n.dependents| ==> n.dependents[k] in s
  }

  ghost function SetOf(nodes: seq<DAGNode>): set<DAGNode> {
    set n | n in nodes
  }

  ghost predicate Contains(s: set<DAGNode>, nodes: seq<DAGNode>) {
    forall k :: 0 <= k < |nodes| ==> nodes[k] in s
  }

  lemma {:induction false} DistinctFit(nodes: seq<DAGNode>, s: set<DAGNode>)
    requires AllDistinct(nodes) && Contains(s, nodes)
    ensures |nodes| <= |s|
  {
    if nodes != [] {
      var n := |nodes| - 1;
      assert Contains(s - {nodes[n]}, nodes[..n]);
      DistinctFit(nodes[..n], s - {nodes[n]});
    }
  }

  lemma {:induction false} DistinctSize(nodes: seq<DAGNode>)
    requires AllDistinct(nodes)
    ensures |SetOf(nodes)| == |nodes|
  {
    if nodes != [] {
      var n := |nodes| - 1;
      DistinctSize(nodes[..n]);
      assert nodes == nodes[..n] + [nodes[n]];
      assert SetOf(nodes) == SetOf(nodes[..n]) + {nodes[n]};
      assert nodes[n] !in nodes[..n];
    }
  }

  /** The reachable nodes, without repetition: the least set that contains the roots and the dependents
      of its members. `universe` bounds the search. */
  method ReachableNodes(roots: seq<DAGNode>, ghost universe: set<DAGNode>) returns (order: seq<DAGNode>)
    requires Closed(universe) && Contains(universe, roots)
    ensures AllDistinct(order)
    ensures Contains(SetOf(order), roots) && Closed(SetOf(order))
    ensures forall s: set<DAGNode> :: Closed(s) && Contains(s, roots) ==> Contains(s, order)
  {
    var visited: set<DAGNode> := {};
    var queue: seq<DAGNode> := [];
    for r := 0 to |roots|
      invariant AllDistinct(queue) && Contains(universe, queue) && visited == SetOf(queue)
      invariant Contains(visited, roots[..r])
      invariant forall s: set<DAGNode> :: Closed(s) && Contains(s, roots) ==> Contains(s, queue)
    {
      if roots[r] !in visited {
        visited := visited + {roots[r]};
        queue := queue + [roots[r]];
      }
    }
    order := [];
    var i := 0;
    while i < |queue|
      invariant i <= |queue| && order == queue[..i]
      invariant AllDistinct(queue) && Contains(universe, queue) && visited == SetOf(queue)
      invariant Contains(visited, roots)
      invariant forall j :: 0 <= j < i ==> Contains(visited, queue[j].dependents)
      invariant forall s: set<DAGNode> :: Closed(s) && Contains(s, roots) ==> Contains(s, queue)
      decreases |universe| - i
    {
      DistinctFit(queue, universe);
      queue, visited := VisitAll(queue[i].dependents, queue, visited, universe, queue[i], roots);
      order := order + [queue[i]];
      i := i + 1;
    }
  }

  /** The inner loop of the search: the unvisited dependents of `node` join the queue. */
  method VisitAll(deps: seq<DAGNode>, before: seq<DAGNode>, seen: set<DAGNode>, ghost universe: set<DAGNode>,
                  ghost node: DAGNode, ghost roots: seq<DAGNode>)
    returns (queue: seq<DAGNode>, visited: set<DAGNode>)
    requires AllDistinct(before) && Contains(universe, before) && seen == SetOf(before)
    requires node in before && deps == node.dependents && Closed(universe)
    requires forall s: set<DAGNode> :: Closed(s) && Contains(s, roots) ==> Contains(s, before)
    ensures before <= queue && AllDistinct(queue) && Contains(universe, queue) && visited == SetOf(queue)
    ensures Contains(visited, deps)
    ensures forall s: set<DAGNode> :: Closed(s) && Contains(s, roots) ==> Contains(s, queue)
  {
    queue, visited := before, seen;
    for d := 0 to |deps|
      invariant before <= queue && AllDistinct(queue) && Contains(universe, queue) && visited == SetOf(queue)
      invariant Contains(visited, deps[..d])
      invariant forall s: set<DAGNode> :: Closed(s) && Contains(s, roots) ==> Contains(s, queue)
    {
      if deps[d] !in visited {
        visited := visited + {deps[d]};
        queue := queue + [deps[d]];
      }
    }
  }

  /** Every position is reached from the roots, through ever smaller positions. */
  lemma {:induction false} Grounded(batch: seq<Operation>, all: seq<DAGNode>, roots: seq<DAGNode>, s: set<DAGNode>,
                                    j: nat)
    requires Wired(batch, all) && Points(all, roots, Roots(batch, |batch|)) && j < |all|
    requires Closed(s) && Contains(s, roots)
    ensures all[j] in s
    decreases j
  {
    if Predecessors(batch, j) == {} {
      RootsOnce(batch, |batch|, j);
      var k :| 0 <= k < |Roots(batch, |batch|)| && Roots(batch, |batch|)[k] == j;
      assert roots[k] == all[j];
    } else {
      var i :| i in Predecessors(batch, j);
      Grounded(batch, all, roots, s, i);
      WiredEdges(batch, all, i, j);
      assert all[j] in all[i].dependents;
    }
  }

  lemma NodesAreClosed(batch: seq<Operation>, all: seq<DAGNode>)
    requires Wired(batch, all)
    ensures Closed(SetOf(all))
  {
    var s := SetOf(all);
    forall n, k | n in s && 0 <= k < |n.dependents|
      ensures n.dependents[k] in s
    {
      var i :| 0 <= i < |all| && all[i] == n;
      assert Points(all, all[i].dependents, Dependents(batch, i, |batch|));
    }
  }

  /** What Run prepares: the search finds every operation of the batch, so the channel's capacity and
      the counter both start at the batch size, and seeding the roots cannot overfill the channel. */
  method Prepare(batch: seq<Operation>, all: seq<DAGNode>, initial: seq<DAGNode>)
    returns (capacity: nat, workCh: seq<DAGNode>, remaining: nat)
    requires Wired(batch, all) && Points(all, initial, Roots(batch, |batch|))
    ensures capacity == remaining == |batch|
    ensures workCh == initial && |workCh| <= capacity
  {
    NodesAreClosed(batch, all);
    ghost var universe := SetOf(all);
    assert Contains(universe, initial);
    var order := ReachableNodes(initial, universe);
    ghost var found := SetOf(order);
    forall j | 0 <= j < |all|
      ensures all[j] in found
    {
      Grounded(batch, all, initial, found, j);
    }
    assert found == universe;
    DistinctSize(order);
    DistinctSize(all);
    RootsFit(batch, |batch|);
    capacity := |order|;
    workCh := initial;
    remaining := capacity;
  }

  lemma {:induction false} RootsFit(batch: seq<Operation>, n: nat)
    requires n <= |batch|
    ensures |Roots(batch, n)| <= n
  {
    if n > 0 {
      RootsFit(batch, n - 1);
    }
  }
}
