/** Kahn's algorithm as both graph checks of compiler/src/graph/validate.rs run it. */
module Kahn {
  import opened Common

  // ----- graphs as edge lists, with repetitions ------------------------------------------

  type Edges<K> = seq<(K, K)>

  ghost predicate Path<K(!new)>(edges: Edges<K>, p: seq<K>) {
    forall i, j :: 0 <= i < |p| && 0 <= j < |p| && j == i + 1 ==> (p[i], p[j]) in edges
  }

  /** A closed path of at least one edge. */
  ghost predicate Cycle<K(!new)>(edges: Edges<K>, p: seq<K>) {
    |p| > 1 && Path(edges, p) && p[0] == p[|p| - 1]
  }

  ghost predicate HasCycle<K(!new)>(edges: Edges<K>) { exists p :: Cycle(edges, p) }

  /** p goes round a cycle and then arrives at v. */
  ghost predicate LoopsInto<K(!new)>(edges: Edges<K>, p: seq<K>, v: K) {
    Path(edges, p) && p != [] && p[|p| - 1] == v && !Distinct(p)
  }

  /** v lies on a cycle or can be reached from one. */
  ghost predicate AfterCycle<K(!new)>(edges: Edges<K>, v: K) { exists p :: LoopsInto(edges, p, v) }

  function Occurrences<K(==)>(s: seq<K>, v: K): nat {
    if s == [] then 0 else (if s[0] == v then 1 else 0) + Occurrences(s[1..], v)
  }

  function Targets<K(==)>(edges: Edges<K>, a: K): seq<K> {
    if edges == [] then []
    else
      var n := |edges| - 1;
      Targets(edges[..n], a) + if edges[n].0 == a then [edges[n].1] else []
  }

  /** Edges into v whose source is not in done. */
  function Pending<K(==)>(edges: Edges<K>, v: K, done: set<K>): nat {
    if edges == [] then 0
    else
      var n := |edges| - 1;
      Pending(edges[..n], v, done) + if edges[n].1 == v && edges[n].0 !in done then 1 else 0
  }

  lemma {:induction false} OccurrencesSnoc<K>(s: seq<K>, x: K, v: K)
    ensures Occurrences(s + [x], v) == Occurrences(s, v) + if x == v then 1 else 0
  {
    if s != [] {
      OccurrencesSnoc(s[1..], x, v);
      assert (s + [x])[1..] == s[1..] + [x];
    }
  }

  lemma {:induction false} OccurrencesPositive<K>(s: seq<K>, v: K)
    ensures Occurrences(s, v) > 0 <==> v in s
  {
    if s != [] {
      OccurrencesPositive(s[1..], v);
    }
  }

  /** Finishing a releases its targets, each as often as it occurs. */
  lemma {:induction false} FinishReleases<K>(edges: Edges<K>, v: K, done: set<K>, a: K)
    requires a !in done
    ensures Pending(edges, v, done) == Pending(edges, v, done + {a}) + Occurrences(Targets(edges, a), v)
  {
    if edges != [] {
      var n := |edges| - 1;
      FinishReleases(edges[..n], v, done, a);
      OccurrencesSnoc(Targets(edges[..n], a), edges[n].1, v);
      assert Targets(edges[..n], a) + [] == Targets(edges[..n], a);
    }
  }

  lemma {:induction false} PendingZero<K>(edges: Edges<K>, v: K, done: set<K>)
    ensures Pending(edges, v, done) == 0 <==> forall a :: (a, v) in edges ==> a in done
  {
    if edges != [] {
      var n := |edges| - 1;
      var rest := edges[..n];
      PendingZero(rest, v, done);
      assert edges == rest + [edges[n]];
      assert forall a :: (a, v) in edges <==> (a, v) in rest || edges[n] == (a, v);
      if edges[n].1 == v {
        assert (edges[n].0, v) in edges;
      }
    }
  }

  lemma {:induction false} TargetsAreEdges<K>(edges: Edges<K>, a: K, b: K)
    ensures b in Targets(edges, a) <==> (a, b) in edges
  {
    if edges != [] {
      var n := |edges| - 1;
      TargetsAreEdges(edges[..n], a, b);
      assert edges == edges[..n] + [edges[n]];
    }
  }

  // ----- no repetition means no more elements than the set has ------------------------------

  lemma {:induction false} DistinctFits<K(!new)>(p: seq<K>, u: set<K>)
    requires Distinct(p) && forall x :: x in p ==> x in u
    ensures |p| <= |u|
  {
    if p != [] {
      var n := |p| - 1;
      var x, q := p[n], p[..n];
      assert forall y :: y in q ==> y in p && y != x;
      DistinctFits(q, u - {x});
      assert x in p;
    }
  }

  lemma {:induction false} DistinctFills<K(!new)>(p: seq<K>, u: set<K>)
    requires Distinct(p) && (forall x :: x in p ==> x in u) && |p| == |u|
    ensures forall x :: x in u ==> x in p
  {
    if x :| x in u && x !in p {
      DistinctFits(p, u - {x});
    }
  }

  // ----- nodes never released are exactly those after a cycle ---------------------------------

  /** Every element's sources come earlier. */
  ghost predicate Ordered<K(!new)>(edges: Edges<K>, order: seq<K>) {
    forall j, a :: 0 <= j < |order| && (a, order[j]) in edges ==> a in order[..j]
  }

  /** Along a path into an ordered list, positions go down. */
  lemma {:induction false} Descends<K(!new)>(edges: Edges<K>, order: seq<K>, p: seq<K>, j: nat) returns (i: nat)
    requires Ordered(edges, order) && Path(edges, p) && p != []
    requires j < |order| && order[j] == p[|p| - 1]
    ensures i <= j && order[i] == p[0] && (|p| > 1 ==> i < j)
    decreases |p|
  {
    if |p| == 1 {
      i := j;
    } else {
      var n := |p| - 1;
      assert (p[n - 1], p[n]) in edges;
      assert p[n - 1] in order[..j];
      var k: nat :| k < j && order[k] == p[n - 1];
      assert Path(edges, p[..n]);
      i := Descends(edges, order, p[..n], k);
    }
  }

  lemma {:induction false} OrderedIsAcyclic<K(!new)>(edges: Edges<K>, order: seq<K>, v: K)
    requires Ordered(edges, order) && Distinct(order) && v in order
    ensures !AfterCycle(edges, v)
  {
    if p :| LoopsInto(edges, p, v) {
      var i, j :| 0 <= i < j < |p| && p[i] == p[j];
      var k :| 0 <= k < |order| && order[k] == v;
      assert Path(edges, p[j..]) && Path(edges, p[i..j + 1]);
      var kj := Descends(edges, order, p[j..], k);
      var ki := Descends(edges, order, p[i..j + 1], kj);
    }
  }

  /** Every node of u has a source in u. */
  ghost predicate Fed<K(!new)>(edges: Edges<K>, u: set<K>) {
    forall v {:trigger HasSource(edges, u, v)} :: v in u ==> HasSource(edges, u, v)
  }

  ghost predicate HasSource<K(!new)>(edges: Edges<K>, u: set<K>, v: K) {
    exists a :: a in u && (a, v) in edges
  }

  lemma {:induction false} BackwardPath<K(!new)>(edges: Edges<K>, u: set<K>, v: K, n: nat) returns (p: seq<K>)
    requires Fed(edges, u) && v in u
    ensures |p| == n + 1 && Path(edges, p) && p[n] == v && forall x :: x in p ==> x in u
    decreases n
  {
    if n == 0 {
      p := [v];
    } else {
      assert HasSource(edges, u, v);
      var a :| a in u && (a, v) in edges;
      var q := BackwardPath(edges, u, a, n - 1);
      p := q + [v];
    }
  }

  lemma {:induction false} FedIsAfterCycle<K(!new)>(edges: Edges<K>, u: set<K>, v: K)
    requires Fed(edges, u) && v in u
    ensures AfterCycle(edges, v)
  {
    var p := BackwardPath(edges, u, v, |u|);
    if Distinct(p) {
      DistinctFits(p, u);
    }
    assert LoopsInto(edges, p, v);
  }

  /** There is a cycle exactly when some node comes after one. */
  lemma {:induction false} CycleHasNodes<K(!new)>(edges: Edges<K>)
    ensures HasCycle(edges) <==> exists v :: AfterCycle(edges, v)
  {
    if p :| Cycle(edges, p) {
      assert LoopsInto(edges, p, p[0]);
      assert AfterCycle(edges, p[0]);
    }
    if v :| AfterCycle(edges, v) {
      var p :| LoopsInto(edges, p, v);
      var i, j :| 0 <= i < j < |p| && p[i] == p[j];
      var q := p[i..j + 1];
      assert Cycle(edges, q);
    }
  }

  // ----- the algorithm -----------------------------------------------------------------------

  /** adjacency and counters represent the edge list. */
  ghost predicate Represents<K(!new)>(adj: map<K, seq<K>>, degree: map<K, nat>, edges: Edges<K>) {
    && (forall e :: e in edges ==> e.0 in degree && e.1 in degree)
    && (forall a :: Targets(edges, a) == if a in adj then adj[a] else [])
    && (forall v :: v in degree ==> degree[v] == Pending(edges, v, {}))
  }

  /** Decrement the counter of each target; those that reach zero join the queue. */
  method Release<K(!new, ==)>(targets: seq<K>, degree0: map<K, nat>, queue0: seq<K>)
    returns (degree: map<K, nat>, queue: seq<K>)
    requires forall v :: v in targets ==> v in degree0
    requires forall v :: v in degree0 ==> Occurrences(targets, v) <= degree0[v]
    requires Distinct(queue0) && forall v :: v in queue0 ==> v in degree0 && degree0[v] == 0
    ensures degree.Keys == degree0.Keys
    ensures forall v :: v in degree0 ==> degree[v] == degree0[v] - Occurrences(targets, v)
    ensures Distinct(queue)
    ensures forall v :: v in queue <==> v in queue0 || (v in targets && degree[v] == 0)
  {
    degree, queue := degree0, queue0;
    assert targets[0..] == targets;
    for i := 0 to |targets|
      invariant degree.Keys == degree0.Keys && Distinct(queue)
      invariant forall v :: v in degree0 ==>
        degree[v] + Occurrences(targets, v) == degree0[v] + Occurrences(targets[i..], v)
      invariant forall v :: v in queue <==> v in queue0 || (v in targets[..i] && degree[v] == 0)
    {
      var v := targets[i];
      assert targets[i..][1..] == targets[i + 1..];
      assert v in targets;
      assert targets[..i + 1] == targets[..i] + [v];
      OccurrencesPositive(targets[i..], v);
      OccurrencesPositive(targets, v);
      assert degree[v] > 0 by {
        OccurrencesAtMost(targets, i, v);
      }
      if v in degree {
        degree := degree[v := degree[v] - 1];
        if degree[v] == 0 {
          queue := queue + [v];
        }
      }
    }
    assert targets[..|targets|] == targets;
  }

  lemma {:induction false} OccurrencesAtMost<K>(s: seq<K>, i: nat, v: K)
    requires i <= |s|
    ensures Occurrences(s[i..], v) <= Occurrences(s, v)
  {
    if i == 0 {
      assert s[i..] == s;
    } else {
      OccurrencesAtMost(s[1..], i - 1, v);
      assert s[1..][i - 1..] == s[i..];
    }
  }

  /** What the loop keeps. */
  ghost predicate Inv<K(!new)>(edges: Edges<K>, degree: map<K, nat>, order: seq<K>, done: set<K>, queue: seq<K>) {
    && Distinct(order) && Distinct(queue) && Ordered(edges, order)
    && (forall v :: v in done <==> v in order)
    && (forall v :: v in done ==> v !in queue)
    && (forall v :: v in done || v in queue <==> v in degree && degree[v] == 0)
    && (forall v :: v in degree ==> degree[v] == Pending(edges, v, done))
  }

  lemma {:induction false} NextIsReady<K(!new)>(edges: Edges<K>, degree: map<K, nat>, order: seq<K>, done: set<K>,
                                         queue: seq<K>)
    requires Inv(edges, degree, order, done, queue) && queue != []
    ensures Ordered(edges, order + [queue[0]]) && Distinct(order + [queue[0]])
    ensures queue[0] !in done
    ensures forall v :: v in queue[1..] <==> v in queue && v != queue[0]
  {
    var x := queue[0];
    var all := order + [x];
    assert x in queue;
    PendingZero(edges, x, done);
    forall j, a | 0 <= j < |all| && (a, all[j]) in edges ensures a in all[..j] {
      if j < |order| {
        assert all[j] == order[j] && all[..j] == order[..j];
      } else {
        assert all[..j] == order;
      }
    }
  }

  lemma {:induction false} StuckIsFed<K(!new)>(edges: Edges<K>, degree: map<K, nat>, order: seq<K>, done: set<K>)
    requires Inv(edges, degree, order, done, []) && forall e :: e in edges ==> e.0 in degree && e.1 in degree
    ensures Fed(edges, degree.Keys - done)
  {
    var u := degree.Keys - done;
    forall v | v in u ensures HasSource(edges, u, v) {
      PendingZero(edges, v, done);
      var a :| (a, v) in edges && a !in done;
      assert (a, v).0 in degree;
    }
  }

  /** Elements of a set in an order of the map's choosing. */
  method Zeros<K(!new, ==)>(degree: map<K, nat>) returns (queue: seq<K>)
    ensures Distinct(queue)
    ensures forall v :: v in queue <==> v in degree && degree[v] == 0
  {
    queue := [];
    var rest := degree.Keys;
    while rest != {}
      invariant rest <= degree.Keys && Distinct(queue)
      invariant forall v :: v in queue <==> v in degree.Keys - rest && degree[v] == 0
    {
      var v :| v in rest;
      if degree[v] == 0 {
        queue := queue + [v];
      }
      rest := rest - {v};
    }
  }

  /** Exactly the nodes that no cycle leads into are output, each once, sources first; the
      counters of the others stay positive. */
  method Sort<K(!new, ==)>(adj: map<K, seq<K>>, degree0: map<K, nat>, ghost edges: Edges<K>)
    returns (order: seq<K>, degree: map<K, nat>)
    requires Represents(adj, degree0, edges)
    ensures Distinct(order) && Ordered(edges, order) && degree.Keys == degree0.Keys
    ensures forall v :: v in order <==> v in degree && !AfterCycle(edges, v)
    ensures forall v :: v in degree ==> (degree[v] == 0 <==> v in order)
  {
    degree, order := degree0, [];
    var queue := Zeros(degree);
    ghost var done: set<K> := {};
    while queue != []
      invariant degree.Keys == degree0.Keys && Inv(edges, degree, order, done, queue)
      decreases degree.Keys - done
    {
      NextIsReady(edges, degree, order, done, queue);
      var x := queue[0];
      queue := queue[1..];
      order := order + [x];
      ghost var before := degree;
      var targets := if x in adj then adj[x] else [];
      ReleaseIsAllowed(edges, degree, done, x, targets);
      degree, queue := Release(targets, degree, queue);
      FinishKeepsInv(edges, before, degree, done, x, targets);
      done := done + {x};
    }
    StuckIsFed(edges, degree, order, done);
    forall v | v in degree ensures v in order <==> !AfterCycle(edges, v) {
      if v in done {
        OrderedIsAcyclic(edges, order, v);
      } else {
        FedIsAfterCycle(edges, degree.Keys - done, v);
      }
    }
  }

  lemma {:induction false} ReleaseIsAllowed<K(!new)>(edges: Edges<K>, degree: map<K, nat>, done: set<K>, x: K,
                                              targets: seq<K>)
    requires targets == Targets(edges, x) && x !in done
    requires forall e :: e in edges ==> e.0 in degree && e.1 in degree
    requires forall v :: v in degree ==> degree[v] == Pending(edges, v, done)
    ensures forall v :: v in targets ==> v in degree
    ensures forall v :: v in degree ==> Occurrences(targets, v) <= degree[v]
  {
    forall v | v in targets ensures v in degree {
      TargetsAreEdges(edges, x, v);
      assert (x, v).1 in degree;
    }
    forall v | v in degree ensures Occurrences(targets, v) <= degree[v] {
      FinishReleases(edges, v, done, x);
    }
  }

  lemma {:induction false} FinishKeepsInv<K(!new)>(edges: Edges<K>, before: map<K, nat>, degree: map<K, nat>,
                                            done: set<K>, x: K, targets: seq<K>)
    requires targets == Targets(edges, x) && x !in done && degree.Keys == before.Keys
    requires forall v :: v in before ==> before[v] == Pending(edges, v, done)
    requires forall v :: v in before ==> degree[v] == before[v] - Occurrences(targets, v)
    ensures forall v :: v in degree ==> degree[v] == Pending(edges, v, done + {x})
    ensures forall v :: v in degree ==> (v in targets <==> degree[v] < before[v])
  {
    forall v | v in degree ensures degree[v] == Pending(edges, v, done + {x})
    {
      FinishReleases(edges, v, done, x);
    }
    forall v | v in degree ensures v in targets <==> degree[v] < before[v] {
      OccurrencesPositive(targets, v);
    }
  }

  /** Comparing lengths tells whether every node was output. */
  lemma {:induction false} CountTells<K(!new)>(order: seq<K>, keys: set<K>)
    requires Distinct(order) && forall v :: v in order ==> v in keys
    ensures |order| < |keys| <==> exists v :: v in keys && v !in order
  {
    DistinctFits(order, keys);
    if |order| == |keys| {
      DistinctFills(order, keys);
    } else if forall v :: v in keys ==> v in order {
      SetFits(order, keys);
    }
  }

  lemma {:induction false} SetFits<K(!new)>(order: seq<K>, keys: set<K>)
    requires forall v :: v in keys ==> v in order
    ensures |keys| <= |order|
  {
    if order == [] {
      assert keys == {};
    } else {
      var n := |order| - 1;
      SetFits(order[..n], keys - {order[n]});
      assert |keys - {order[n]}| >= |keys| - 1;
    }
  }

  /** One more edge. */
  method AddEdge<K(!new, ==)>(adj0: map<K, seq<K>>, degree0: map<K, nat>, ghost edges: Edges<K>, a: K, b: K)
    returns (adj: map<K, seq<K>>, degree: map<K, nat>)
    requires Represents(adj0, degree0, edges) && a in degree0
    ensures Represents(adj, degree, edges + [(a, b)]) && degree.Keys == degree0.Keys + {b}
  {
    adj := adj0[a := (if a in adj0 then adj0[a] else []) + [b]];
    degree := degree0[b := (if b in degree0 then degree0[b] else 0) + 1];
    ghost var more := edges + [(a, b)];
    assert more[..|edges|] == edges;
    forall x ensures Targets(more, x) == if x in adj then adj[x] else [] {
      assert Targets(edges, x) == if x in adj0 then adj0[x] else [];
    }
    if b !in degree0 {
      NothingPending(edges, b);
    }
    forall v | v in degree ensures degree[v] == Pending(more, v, {}) {
    }
  }

  lemma {:induction false} NothingPending<K(!new)>(edges: Edges<K>, b: K)
    requires forall e :: e in edges ==> e.1 != b
    ensures Pending(edges, b, {}) == 0
  {
    PendingZero(edges, b, {});
    assert forall a :: (a, b) in edges ==> (a, b).1 != b;
  }

  /** entry(v).or_default() */
  method WithList<K(!new, ==)>(adj0: map<K, seq<K>>, ghost degree: map<K, nat>, ghost edges: Edges<K>, v: K)
    returns (adj: map<K, seq<K>>)
    requires Represents(adj0, degree, edges)
    ensures Represents(adj, degree, edges) && v in adj
  {
    adj := if v in adj0 then adj0 else adj0[v := []];
    forall a ensures Targets(edges, a) == if a in adj then adj[a] else [] {
      assert Targets(edges, a) == if a in adj0 then adj0[a] else [];
    }
  }

  /** entry(v).or_insert(0) */
  method WithCounter<K(!new, ==)>(ghost adj: map<K, seq<K>>, degree0: map<K, nat>, ghost edges: Edges<K>, v: K)
    returns (degree: map<K, nat>)
    requires Represents(adj, degree0, edges)
    ensures Represents(adj, degree, edges) && degree.Keys == degree0.Keys + {v}
  {
    degree := if v in degree0 then degree0 else degree0[v := 0];
    if v !in degree0 {
      NothingPending(edges, v);
    }
  }
}
