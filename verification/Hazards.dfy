/** The hazard graph of a batch, stated declaratively: which pairs of positions get an edge, which
    get a path, and how many edges there are. */
module Hazards {
  import opened Operations

  /** SeqIDs are the positions, and all types are known, in the first n operations. */
  ghost predicate Buildable(batch: seq<Operation>, n: nat)
    requires n <= |batch|
  {
    forall i :: 0 <= i < n ==> batch[i].seqId == i && batch[i].Known()
  }

  /** No write or delete of `key` lies strictly between i and j. */
  predicate Undisturbed(batch: seq<Operation>, key: Key, i: nat, j: nat)
    requires j <= |batch|
  {
    forall m :: i < m < j ==> !WritesKey(batch, m, key)
  }

  /** Position j must wait directly for position i. */
  predicate Edge(batch: seq<Operation>, i: nat, j: nat) {
    Hazard(batch, i, j) && Undisturbed(batch, batch[i].key, i, j)
  }

  ghost predicate Ascending(positions: seq<nat>) {
    forall a, b :: 0 <= a < b < |positions| ==> positions[a] < positions[b]
  }

  ghost predicate Within(positions: seq<nat>, n: nat) {
    forall k :: 0 <= k < |positions| ==> positions[k] < n
  }

  /** The positions below n that wait for i, ascending. */
  function Dependents(batch: seq<Operation>, i: nat, n: nat): (deps: seq<nat>)
    ensures Within(deps, n)
    ensures forall j: nat :: j in deps <==> j < n && Edge(batch, i, j)
  {
    if n == 0 then []
    else if Edge(batch, i, n - 1) then Dependents(batch, i, n - 1) + [n - 1]
    else Dependents(batch, i, n - 1)
  }

  /** No edge is repeated. */
  lemma {:induction false} DependentsOnce(batch: seq<Operation>, i: nat, n: nat, j: nat)
    ensures multiset(Dependents(batch, i, n))[j] == if j < n && Edge(batch, i, j) then 1 else 0
  {
    if n > 0 {
      DependentsOnce(batch, i, n - 1, j);
    }
  }

  /** The positions j waits for. */
  function Predecessors(batch: seq<Operation>, j: nat): (preds: set<nat>)
    ensures forall i :: i in preds <==> Edge(batch, i, j)
  {
    set i: nat | i < j && Edge(batch, i, j)
  }

  /** The positions below n that wait for nothing, ascending. */
  function Roots(batch: seq<Operation>, n: nat): (roots: seq<nat>)
    requires n <= |batch|
    ensures Within(roots, n)
  {
    if n == 0 then []
    else if Predecessors(batch, n - 1) == {} then Roots(batch, n - 1) + [n - 1]
    else Roots(batch, n - 1)
  }

  lemma {:induction false} RootsOnce(batch: seq<Operation>, n: nat, j: nat)
    requires n <= |batch|
    ensures multiset(Roots(batch, n))[j] == if j < n && Predecessors(batch, j) == {} then 1 else 0
  {
    if n > 0 {
      RootsOnce(batch, n - 1, j);
      var none := Predecessors(batch, n - 1) == {};
      assert Roots(batch, n) == Roots(batch, n - 1) + if none then [n - 1] else [];
    }
  }

  /** Dependents and roots are listed in SeqID order. */
  lemma {:induction false} ListedInOrder(batch: seq<Operation>, i: nat, n: nat)
    requires n <= |batch|
    ensures Ascending(Dependents(batch, i, n)) && Ascending(Roots(batch, n))
  {
    if n > 0 {
      ListedInOrder(batch, i, n - 1);
    }
  }

  /** A root has no earlier conflicting operation, and only roots have none. */
  lemma RootHasNoHazard(batch: seq<Operation>, j: nat)
    requires j < |batch|
    ensures Predecessors(batch, j) == {} <==>
            forall i :: 0 <= i < j ==> !Hazard(batch, i, j)
  {
    if i: nat :| i < j && Hazard(batch, i, j) {
      var p := LastHazard(batch, i, j);
      assert p in Predecessors(batch, j);
    } else {
      forall i | i in Predecessors(batch, j)
        ensures Hazard(batch, i, j)
      {
      }
    }
  }

  /** The latest position at or after i that j waits for directly. */
  lemma {:induction false} LastHazard(batch: seq<Operation>, i: nat, j: nat) returns (p: nat)
    requires Hazard(batch, i, j)
    ensures i <= p && Edge(batch, p, j)
    decreases j - i
  {
    if Edge(batch, i, j) {
      p := i;
    } else {
      var m: nat :| i < m < j && WritesKey(batch, m, batch[i].key);
      p := LastHazard(batch, m, j);
    }
  }

  /** j is reachable from i along edges. */
  ghost predicate Path(batch: seq<Operation>, i: nat, j: nat)
    decreases j - i
  {
    i < j && (Edge(batch, i, j) || exists m :: i < m < j && Edge(batch, i, m) && Path(batch, m, j))
  }

  ghost predicate TouchesSameKeyWithWrite(batch: seq<Operation>, i: nat, j: nat) {
    && i < j < |batch|
    && batch[i].key == batch[j].key
    && exists m :: i <= m <= j && WritesKey(batch, m, batch[i].key)
  }

  /** Two positions are ordered exactly when they share a key and a write or delete of it lies in i..j. */
  lemma {:induction false} PathExact(batch: seq<Operation>, i: nat, j: nat)
    ensures Path(batch, i, j) <==> TouchesSameKeyWithWrite(batch, i, j)
  {
    if TouchesSameKeyWithWrite(batch, i, j) {
      WriteBetweenGivesPath(batch, i, j);
    }
    if Path(batch, i, j) {
      PathGivesWrite(batch, i, j);
    }
  }

  lemma {:induction false} PathGivesWrite(batch: seq<Operation>, i: nat, j: nat)
    requires Path(batch, i, j)
    ensures TouchesSameKeyWithWrite(batch, i, j)
    decreases j - i
  {
    if Edge(batch, i, j) {
      assert WritesKey(batch, i, batch[i].key) || WritesKey(batch, j, batch[i].key);
    } else {
      var m :| i < m < j && Edge(batch, i, m) && Path(batch, m, j);
      PathGivesWrite(batch, m, j);
    }
  }

  /** The first write or delete of `key` after i, at or before m. */
  lemma {:induction false} FirstWrite(batch: seq<Operation>, key: Key, i: nat, m: nat) returns (f: nat)
    requires i < m < |batch| && WritesKey(batch, m, key)
    ensures i < f <= m && WritesKey(batch, f, key) && Undisturbed(batch, key, i, f)
    decreases m
  {
    if Undisturbed(batch, key, i, m) {
      f := m;
    } else {
      var e: nat :| i < e < m && WritesKey(batch, e, key);
      f := FirstWrite(batch, key, i, e);
    }
  }

  lemma {:induction false} WriteBetweenGivesPath(batch: seq<Operation>, i: nat, j: nat)
    requires TouchesSameKeyWithWrite(batch, i, j)
    ensures Path(batch, i, j)
    decreases j - i
  {
    var key := batch[i].key;
    if !Edge(batch, i, j) {
      var m: nat :| i < m < j && WritesKey(batch, m, key);
      var f := FirstWrite(batch, key, i, m);
      WriteBetweenGivesPath(batch, f, j);
      assert Edge(batch, i, f);
    }
  }

  ghost predicate ClosedUnderPredecessors(batch: seq<Operation>, done: set<nat>) {
    forall i, j :: Edge(batch, i, j) && j in done ==> i in done
  }

  /** A set closed under direct predecessors contains every earlier conflicting position. */
  lemma ClosedUnderHazards(batch: seq<Operation>, done: set<nat>, i: nat, j: nat)
    requires ClosedUnderPredecessors(batch, done) && j in done && Hazard(batch, i, j)
    ensures i in done
  {
    assert WritesKey(batch, i, batch[i].key) || WritesKey(batch, j, batch[i].key);
    PathExact(batch, i, j);
    ClosedUnderPath(batch, done, i, j);
  }

  lemma {:induction false} ClosedUnderPath(batch: seq<Operation>, done: set<nat>, i: nat, j: nat)
    requires ClosedUnderPredecessors(batch, done) && j in done && Path(batch, i, j)
    ensures i in done
    decreases j - i
  {
    if !Edge(batch, i, j) {
      var m :| i < m < j && Edge(batch, i, m) && Path(batch, m, j);
      ClosedUnderPath(batch, done, m, j);
    }
  }

  // ----- how many edges Build creates -----

  ghost function Edges(batch: seq<Operation>): (edges: set<(nat, nat)>)
    ensures forall e :: e in edges <==> Edge(batch, e.0, e.1)
  {
    set i: nat, j: nat | i < |batch| && j < |batch| && Edge(batch, i, j) :: (i, j)
  }

  ghost function EdgesFrom(batch: seq<Operation>, i: nat, n: nat): (edges: set<(nat, nat)>)
    ensures forall e :: e in edges <==> e.0 == i && e.1 < n && Edge(batch, i, e.1)
  {
    set j: nat | j < n && Edge(batch, i, j) :: (i, j)
  }

  lemma {:induction false} EdgesFromCount(batch: seq<Operation>, i: nat, n: nat)
    ensures |EdgesFrom(batch, i, n)| == |Dependents(batch, i, n)|
  {
    if n == 0 {
      assert EdgesFrom(batch, i, n) == {};
    } else {
      EdgesFromCount(batch, i, n - 1);
      var before := EdgesFrom(batch, i, n - 1);
      assert (i, n - 1) !in before;
      assert EdgesFrom(batch, i, n) == if Edge(batch, i, n - 1) then before + {(i, n - 1)} else before;
    }
  }

  /** The number of dependents of the first n positions. */
  function DependentsTotal(batch: seq<Operation>, n: nat): nat {
    if n == 0 then 0 else DependentsTotal(batch, n - 1) + |Dependents(batch, n - 1, |batch|)|
  }

  ghost function EdgesBelow(batch: seq<Operation>, n: nat): (edges: set<(nat, nat)>)
    ensures forall e :: e in edges <==> e.0 < n && Edge(batch, e.0, e.1)
  {
    set e | e in Edges(batch) && e.0 < n
  }

  lemma EdgesBelowSplits(batch: seq<Operation>, n: nat)
    requires n > 0
    ensures |EdgesBelow(batch, n)| == |EdgesBelow(batch, n - 1)| + |EdgesFrom(batch, n - 1, |batch|)|
  {
    var before, last := EdgesBelow(batch, n - 1), EdgesFrom(batch, n - 1, |batch|);
    assert EdgesBelow(batch, n) == before + last;
    assert before !! last;
  }

  lemma {:induction false} EdgesBelowCount(batch: seq<Operation>, n: nat)
    ensures |EdgesBelow(batch, n)| == DependentsTotal(batch, n)
  {
    if n == 0 {
      assert EdgesBelow(batch, n) == {};
    } else {
      EdgesBelowCount(batch, n - 1);
      EdgesFromCount(batch, n - 1, |batch|);
      EdgesBelowSplits(batch, n);
    }
  }

  /** The listed dependents are as many as the edges. */
  lemma {:induction false} DependentsTotalIsEdges(batch: seq<Operation>)
    ensures DependentsTotal(batch, |batch|) == |Edges(batch)|
  {
    EdgesBelowCount(batch, |batch|);
    assert EdgesBelow(batch, |batch|) == Edges(batch);
  }

  ghost function Reads(batch: seq<Operation>): set<nat> {
    set i: nat | i < |batch| && batch[i].typ.OpRead?
  }

  ghost function Positions(n: nat): (s: set<nat>)
    ensures |s| == n && forall i :: i in s <==> 0 <= i < n
  {
    if n == 0 then {} else Positions(n - 1) + {n - 1}
  }

  predicate SameEnd(e: (nat, nat), f: (nat, nat), source: bool) {
    if source then e.0 == f.0 else e.1 == f.1
  }

  /** A set of edges no two of which share the end picked by `source` is no larger than the set of those ends. */
  lemma {:induction false} InjectiveCount(edges: set<(nat, nat)>, ends: set<nat>, source: bool)
    requires forall e :: e in edges ==> (if source then e.0 else e.1) in ends
    requires forall e, f :: e in edges && f in edges && SameEnd(e, f, source) ==> e == f
    ensures |edges| <= |ends|
    decreases |edges|
  {
    if edges != {} {
      var e :| e in edges;
      var end := if source then e.0 else e.1;
      InjectiveCount(edges - {e}, ends - {end}, source);
      assert |ends - {end}| == |ends| - 1;
      assert |edges - {e}| == |edges| - 1;
    }
  }

  /** Each read is drained by at most one write and each position waits for at most one write, so a
      batch of N operations has at most N edges plus one per read. */
  lemma EdgeBound(batch: seq<Operation>)
    requires forall i :: 0 <= i < |batch| ==> batch[i].Known()
    ensures |Edges(batch)| <= |batch| + |Reads(batch)| <= 2 * |batch|
  {
    var all := Edges(batch);
    var fromReads := set e | e in all && batch[e.0].typ.OpRead?;
    var fromWrites := set e | e in all && batch[e.0].Mutates();
    forall e, f | e in fromReads && f in fromReads && e.0 == f.0
      ensures e == f
    {
      assert WritesKey(batch, e.1, batch[e.0].key) && WritesKey(batch, f.1, batch[e.0].key);
    }
    InjectiveCount(fromReads, Reads(batch), true);
    forall e, f | e in fromWrites && f in fromWrites && e.1 == f.1
      ensures e == f
    {
      assert WritesKey(batch, e.0, batch[e.1].key) && WritesKey(batch, f.0, batch[e.1].key);
    }
    InjectiveCount(fromWrites, Positions(|batch|), false);
    assert all == fromReads + fromWrites;
    assert Reads(batch) <= Positions(|batch|);
    SubsetCount(Reads(batch), Positions(|batch|));
  }

  lemma SubsetCount(a: set<nat>, b: set<nat>)
    requires a <= b
    ensures |a| <= |b|
  {
    assert b == a + (b - a);
  }
}
