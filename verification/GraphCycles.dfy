/** Circular dependencies and compilation order, compiler/src/graph/validate.rs:126-184 and
    240-291. */
module GraphCycles {
  import opened Common
  import opened ProjectGraph
  import opened Kahn

  // ----- the dependency relation -----------------------------------------------------------

  /** A behavior named a among the first n requires the local behavior b. */
  ghost predicate RequiresAmong(nodes: seq<Behavior>, n: nat, a: string, b: string) {
    exists i :: 0 <= i < n && i < |nodes| && nodes[i].name == a && b in nodes[i].deps && Local(nodes, b)
  }

  ghost predicate Requires(nodes: seq<Behavior>, a: string, b: string) { RequiresAmong(nodes, |nodes|, a, b) }

  /** Whom a behavior requires, spelled out: every name in its clause that some behavior of the graph
      has, its own included. */
  lemma {:induction false} RequiresExactly(nodes: seq<Behavior>, a: string, b: string)
    ensures Requires(nodes, a, b) <==>
              exists i, k :: 0 <= i < |nodes| && 0 <= k < |nodes|
                          && nodes[i].name == a && b in nodes[i].deps && nodes[k].name == b
  {
    if i, k :| 0 <= i < |nodes| && 0 <= k < |nodes| && nodes[i].name == a && b in nodes[i].deps && nodes[k].name == b {
      assert Local(nodes, b);
    }
  }

  ghost predicate RequiresPath(nodes: seq<Behavior>, p: seq<string>) {
    forall i, j :: 0 <= i < |p| && 0 <= j < |p| && j == i + 1 ==> Requires(nodes, p[i], p[j])
  }

  /** A cycle of REQUIRES clauses among local behaviors. */
  ghost predicate RequiresCycle(nodes: seq<Behavior>) {
    exists p :: |p| > 1 && RequiresPath(nodes, p) && p[0] == p[|p| - 1]
  }

  /** The behavior is on a cycle or is required, directly or not, by one that is. */
  ghost predicate RequiredByCycle(nodes: seq<Behavior>, name: string) {
    exists p :: p != [] && RequiresPath(nodes, p) && p[|p| - 1] == name && !Distinct(p)
  }

  // ----- check_circular_dependencies ---------------------------------------------------------

  ghost predicate NameEdges(nodes: seq<Behavior>, edges: Edges<string>) {
    forall a, b :: (a, b) in edges <==> Requires(nodes, a, b)
  }

  lemma {:induction false} SamePaths(nodes: seq<Behavior>, edges: Edges<string>, p: seq<string>)
    requires NameEdges(nodes, edges)
    ensures Path(edges, p) <==> RequiresPath(nodes, p)
  {
  }

  lemma {:induction false} SameCycles(nodes: seq<Behavior>, edges: Edges<string>)
    requires NameEdges(nodes, edges)
    ensures HasCycle(edges) <==> RequiresCycle(nodes)
    ensures forall v :: AfterCycle(edges, v) <==> RequiredByCycle(nodes, v)
  {
    forall p: seq<string> ensures Path(edges, p) <==> RequiresPath(nodes, p) {
      SamePaths(nodes, edges, p);
    }
    if p :| |p| > 1 && RequiresPath(nodes, p) && p[0] == p[|p| - 1] {
      assert Cycle(edges, p);
    }
    forall v ensures AfterCycle(edges, v) <==> RequiredByCycle(nodes, v) {
      if p :| p != [] && RequiresPath(nodes, p) && p[|p| - 1] == v && !Distinct(p) {
        assert LoopsInto(edges, p, v);
      }
    }
  }

  /** What the construction has done after n behaviors. */
  ghost predicate NamesDone(nodes: seq<Behavior>, n: nat, edges: Edges<string>, degree: map<string, nat>) {
    && (forall a, b :: (a, b) in edges <==> RequiresAmong(nodes, n, a, b))
    && (forall i :: 0 <= i < n && i < |nodes| ==> nodes[i].name in degree)
    && (forall v :: v in degree ==> Local(nodes, v))
  }

  /** What it has done after m dependencies of behavior n. */
  ghost predicate DepsDone(nodes: seq<Behavior>, n: nat, m: nat, before: Edges<string>, edges: Edges<string>)
    requires n < |nodes| && m <= |nodes[n].deps|
  {
    forall e :: e in edges <==>
      e in before || (e.0 == nodes[n].name && e.1 in nodes[n].deps[..m] && Local(nodes, e.1))
  }

  method AddDependencies(nodes: seq<Behavior>, n: nat, adj0: map<string, seq<string>>, degree0: map<string, nat>,
                         ghost before: Edges<string>)
    returns (adj: map<string, seq<string>>, degree: map<string, nat>, ghost edges: Edges<string>)
    requires n < |nodes| && Represents(adj0, degree0, before) && nodes[n].name in degree0
    requires forall v :: v in degree0 ==> Local(nodes, v)
    ensures Represents(adj, degree, edges) && DepsDone(nodes, n, |nodes[n].deps|, before, edges)
    ensures degree0.Keys <= degree.Keys && forall v :: v in degree ==> Local(nodes, v)
  {
    adj, degree, edges := adj0, degree0, before;
    var node := nodes[n];
    for m := 0 to |node.deps|
      invariant Represents(adj, degree, edges) && DepsDone(nodes, n, m, before, edges)
      invariant degree0.Keys <= degree.Keys && forall v :: v in degree ==> Local(nodes, v)
    {
      var dep := node.deps[m];
      assert node.deps[..m + 1] == node.deps[..m] + [dep];
      if FindNode(nodes, dep).Some? {
        adj := WithList(adj, degree, edges, dep);
        adj, degree := AddEdge(adj, degree, edges, node.name, dep);
        edges := edges + [(node.name, dep)];
      }
    }
  }

  lemma {:induction false} OneMoreName(nodes: seq<Behavior>, n: nat, before: Edges<string>, edges: Edges<string>)
    requires n < |nodes| && DepsDone(nodes, n, |nodes[n].deps|, before, edges)
    requires forall a, b :: (a, b) in before <==> RequiresAmong(nodes, n, a, b)
    ensures forall a, b :: (a, b) in edges <==> RequiresAmong(nodes, n + 1, a, b)
  {
    assert nodes[n].deps[..|nodes[n].deps|] == nodes[n].deps;
    forall a, b ensures (a, b) in edges <==> RequiresAmong(nodes, n + 1, a, b) {
      assert (a, b) in before <==> RequiresAmong(nodes, n, a, b);
      assert (a, b).0 == a && (a, b).1 == b;
    }
  }

  method AddBehavior(nodes: seq<Behavior>, n: nat, adj0: map<string, seq<string>>, degree0: map<string, nat>,
                     ghost before: Edges<string>)
    returns (adj: map<string, seq<string>>, degree: map<string, nat>, ghost edges: Edges<string>)
    requires n < |nodes| && Represents(adj0, degree0, before) && NamesDone(nodes, n, before, degree0)
    ensures Represents(adj, degree, edges) && NamesDone(nodes, n + 1, edges, degree)
  {
    var node := nodes[n];
    adj := WithList(adj0, degree0, before, node.name);
    degree := WithCounter(adj, degree0, before, node.name);
    assert Local(nodes, node.name);
    adj, degree, edges := AddDependencies(nodes, n, adj, degree, before);
    NamesStep(nodes, n, before, degree0, edges, degree);
  }

  lemma {:induction false} NamesStep(nodes: seq<Behavior>, n: nat, before: Edges<string>, degree0: map<string, nat>,
                                     edges: Edges<string>, degree: map<string, nat>)
    requires n < |nodes| && NamesDone(nodes, n, before, degree0) && DepsDone(nodes, n, |nodes[n].deps|, before, edges)
    requires degree0.Keys <= degree.Keys && nodes[n].name in degree && forall v :: v in degree ==> Local(nodes, v)
    ensures NamesDone(nodes, n + 1, edges, degree)
  {
    OneMoreName(nodes, n, before, edges);
  }

  lemma {:induction false} AllNamed(nodes: seq<Behavior>, edges: Edges<string>, degree: map<string, nat>)
    requires NamesDone(nodes, |nodes|, edges, degree)
    ensures NameEdges(nodes, edges) && forall v :: v in degree <==> Local(nodes, v)
  {
  }

  method NameGraph(nodes: seq<Behavior>)
    returns (adj: map<string, seq<string>>, degree: map<string, nat>, ghost edges: Edges<string>)
    ensures Represents(adj, degree, edges) && NameEdges(nodes, edges)
    ensures forall v :: v in degree <==> Local(nodes, v)
  {
    adj, degree, edges := map[], map[], [];
    for n := 0 to |nodes|
      invariant Represents(adj, degree, edges) && NamesDone(nodes, n, edges, degree)
    {
      adj, degree, edges := AddBehavior(nodes, n, adj, degree, edges);
    }
    AllNamed(nodes, edges, degree);
  }

  /** Names whose counter stayed positive, in an order of the map's choosing. */
  method Positive<K(!new, ==)>(degree: map<K, nat>) returns (left: seq<K>)
    ensures Distinct(left) && forall v :: v in left <==> v in degree && degree[v] > 0
  {
    left := [];
    var rest := degree.Keys;
    while rest != {}
      invariant rest <= degree.Keys && Distinct(left)
      invariant forall v :: v in left <==> v in degree.Keys - rest && degree[v] > 0
    {
      var v :| v in rest;
      if degree[v] > 0 {
        left := left + [v];
      }
      rest := rest - {v};
    }
  }

  /** check_circular_dependencies reports an error exactly when the REQUIRES graph has a cycle,
      and then lists, once each, the behaviors on or below one. */
  method CheckCircular(graph: Graph) returns (error: Option<seq<string>>)
    ensures error.Some? <==> RequiresCycle(graph.nodes)
    ensures error.Some? ==> error.value != [] && Distinct(error.value)
    ensures error.Some? ==> forall v :: v in error.value <==> Local(graph.nodes, v) && RequiredByCycle(graph.nodes, v)
  {
    var adj, degree, edges := NameGraph(graph.nodes);
    var order, left := Sort(adj, degree, edges);
    CountTells(order, left.Keys);
    SameCycles(graph.nodes, edges);
    CycleHasNodes(edges);
    forall v | AfterCycle(edges, v) ensures v in degree {
      AfterCycleIsNode(adj, degree, edges, v);
    }
    if |order| < |left| {
      var inCycle := Positive(left);
      assert exists v :: v in left && v !in order;
      error := Some(inCycle);
    } else {
      error := None;
    }
  }

  lemma {:induction false} AfterCycleIsNode<K(!new)>(adj: map<K, seq<K>>, degree: map<K, nat>, edges: Edges<K>, v: K)
    requires Represents(adj, degree, edges) && AfterCycle(edges, v)
    ensures v in degree
  {
    var p :| LoopsInto(edges, p, v);
    var n := |p| - 1;
    assert (p[n - 1], p[n]) in edges;
    assert (p[n - 1], p[n]).1 in degree;
  }

  // ----- what the report lists --------------------------------------------------------------

  ghost predicate CycleThrough(nodes: seq<Behavior>, p: seq<string>, name: string) {
    |p| > 1 && RequiresPath(nodes, p) && p[0] == name && p[|p| - 1] == name
  }

  /** The behavior is on a cycle itself. */
  ghost predicate OnCycle(nodes: seq<Behavior>, name: string) { exists p :: CycleThrough(nodes, p, name) }

  lemma {:induction false} OnCycleIsListed(nodes: seq<Behavior>, name: string)
    requires OnCycle(nodes, name)
    ensures RequiredByCycle(nodes, name) && Local(nodes, name)
  {
    var p :| CycleThrough(nodes, p, name);
    assert !Distinct(p);
    assert Requires(nodes, p[|p| - 2], p[|p| - 1]);
  }

  lemma {:induction false} CycleAtRepeat(nodes: seq<Behavior>, p: seq<string>, i: nat, j: nat)
    requires RequiresPath(nodes, p) && i < j < |p| && p[i] == p[j]
    ensures OnCycle(nodes, p[i])
  {
    var q := p[i..j + 1];
    forall k, m | 0 <= k < |q| && 0 <= m < |q| && m == k + 1 ensures Requires(nodes, q[k], q[m]) {
      assert q[k] == p[i + k] && q[m] == p[i + m];
    }
    assert CycleThrough(nodes, q, p[i]);
  }

  /** No behavior on a cycle requires a local behavior that is on none. */
  ghost predicate CyclesClosed(nodes: seq<Behavior>) {
    forall a, b {:trigger Requires(nodes, a, b)} :: OnCycle(nodes, a) && Requires(nodes, a, b) ==> OnCycle(nodes, b)
  }

  lemma {:induction false} ClosedKeepsOnCycle(nodes: seq<Behavior>, p: seq<string>, i: nat, j: nat)
    requires CyclesClosed(nodes) && RequiresPath(nodes, p) && i <= j < |p| && OnCycle(nodes, p[i])
    ensures OnCycle(nodes, p[j])
    decreases j
  {
    if i < j {
      ClosedKeepsOnCycle(nodes, p, i, j - 1);
      assert Requires(nodes, p[j - 1], p[j]);
    }
  }

  lemma {:induction false} OnCycleRequires(nodes: seq<Behavior>, a: string, b: string)
    requires OnCycle(nodes, a) && Requires(nodes, a, b)
    ensures RequiredByCycle(nodes, b)
  {
    var p :| CycleThrough(nodes, p, a);
    var q := p + [b];
    forall k, m | 0 <= k < |q| && 0 <= m < |q| && m == k + 1 ensures Requires(nodes, q[k], q[m]) {
      if m < |p| {
        assert q[k] == p[k] && q[m] == p[m];
      } else {
        assert q[k] == a && q[m] == b;
      }
    }
    assert q[0] == q[|p| - 1];
    assert RequiresPath(nodes, q) && q[|q| - 1] == b;
  }

  /** The report lists exactly the behaviors on cycles if and only if no behavior on a cycle
      requires a local one that is on none. */
  lemma {:induction false} ReportIsCycleExactly(nodes: seq<Behavior>)
    ensures (forall v :: Local(nodes, v) && RequiredByCycle(nodes, v) <==> OnCycle(nodes, v)) <==> CyclesClosed(nodes)
  {
    forall v | OnCycle(nodes, v) ensures Local(nodes, v) && RequiredByCycle(nodes, v) {
      OnCycleIsListed(nodes, v);
    }
    if CyclesClosed(nodes) {
      forall v | RequiredByCycle(nodes, v) ensures OnCycle(nodes, v) {
        var p :| p != [] && RequiresPath(nodes, p) && p[|p| - 1] == v && !Distinct(p);
        var i, j :| 0 <= i < j < |p| && p[i] == p[j];
        CycleAtRepeat(nodes, p, i, j);
        ClosedKeepsOnCycle(nodes, p, i, |p| - 1);
      }
    }
    if forall v :: Local(nodes, v) && RequiredByCycle(nodes, v) <==> OnCycle(nodes, v) {
      forall a, b | OnCycle(nodes, a) && Requires(nodes, a, b) ensures OnCycle(nodes, b) {
        OnCycleRequires(nodes, a, b);
        assert Local(nodes, b);
      }
    }
  }

  /** A requires B and C, B requires A: C is listed without being on a cycle. */
  const Innocent: seq<Behavior> := [Behavior(1, "A", ["B", "C"], false), Behavior(2, "B", ["A"], false),
      Behavior(3, "C", [], false)]

  lemma {:induction false} InnocentRequires(a: string, b: string)
    ensures Requires(Innocent, a, b) <==> (a == "A" && (b == "B" || b == "C")) || (a == "B" && b == "A")
  {
    assert Innocent[0].name == "A" && Innocent[1].name == "B" && Innocent[2].name == "C";
    assert Local(Innocent, "A") && Local(Innocent, "B") && Local(Innocent, "C");
    if a == "A" && (b == "B" || b == "C") {
      assert b in Innocent[0].deps;
    }
    if a == "B" && b == "A" {
      assert b in Innocent[1].deps;
    }
  }

  lemma {:induction false} InnocentBehaviorIsListed()
    ensures Local(Innocent, "C") && RequiredByCycle(Innocent, "C") && !OnCycle(Innocent, "C")
  {
    forall a, b ensures Requires(Innocent, a, b) <==> (a == "A" && (b == "B" || b == "C")) || (a == "B" && b == "A") {
      InnocentRequires(a, b);
    }
    assert Innocent[2].name == "C";
    var p := ["A", "B", "A", "C"];
    assert RequiresPath(Innocent, p) && p[0] == p[2];
    if OnCycle(Innocent, "C") {
      var b := NextOnCycle(Innocent, "C");
    }
  }

  lemma {:induction false} NextOnCycle(nodes: seq<Behavior>, name: string) returns (b: string)
    requires OnCycle(nodes, name)
    ensures Requires(nodes, name, b)
  {
    var p :| CycleThrough(nodes, p, name);
    b := p[1];
    assert Requires(nodes, p[0], p[1]);
  }

  // ----- topological_sort ---------------------------------------------------------------------

  function FindNodeId(nodes: seq<Behavior>, name: string): Option<NodeId> {
    var r := FindNode(nodes, name);
    if r.Some? then Some(nodes[r.value].id) else None
  }

  ghost predicate IsId(nodes: seq<Behavior>, id: NodeId) { exists i :: 0 <= i < |nodes| && nodes[i].id == id }

  /** One of the first n behaviors has id b and requires a name that resolves to id a. */
  ghost predicate PrecedesAmong(nodes: seq<Behavior>, n: nat, a: NodeId, b: NodeId) {
    exists i, d :: 0 <= i < n && i < |nodes| && nodes[i].id == b && d in nodes[i].deps
        && FindNodeId(nodes, d) == Some(a)
  }

  /** Behavior a has to be compiled before behavior b. */
  ghost predicate Precedes(nodes: seq<Behavior>, a: NodeId, b: NodeId) { PrecedesAmong(nodes, |nodes|, a, b) }

  /** What has to be compiled before what, spelled out: the first behavior of each name in the clause
      before the one with the clause. */
  lemma {:induction false} PrecedesExactly(nodes: seq<Behavior>, a: NodeId, b: NodeId)
    ensures Precedes(nodes, a, b) <==>
              exists i, k :: 0 <= i < |nodes| && 0 <= k < |nodes| && nodes[i].id == b && nodes[k].id == a
                          && nodes[k].name in nodes[i].deps && forall j :: 0 <= j < k ==> nodes[j].name != nodes[k].name
  {
    if i, d :| 0 <= i < |nodes| && nodes[i].id == b && d in nodes[i].deps && FindNodeId(nodes, d) == Some(a) {
      var k := FindNode(nodes, d).value;
      assert nodes[k].name == d;
    }
    if i, k :| 0 <= i < |nodes| && 0 <= k < |nodes| && nodes[i].id == b && nodes[k].id == a
               && nodes[k].name in nodes[i].deps && forall j :: 0 <= j < k ==> nodes[j].name != nodes[k].name {
      var r := FindNode(nodes, nodes[k].name);
      assert r.Some? && r.value == k;
      assert FindNodeId(nodes, nodes[k].name) == Some(a);
    }
  }

  ghost predicate PrecedesPath(nodes: seq<Behavior>, p: seq<NodeId>) {
    forall i, j :: 0 <= i < |p| && 0 <= j < |p| && j == i + 1 ==> Precedes(nodes, p[i], p[j])
  }

  ghost predicate PrecedesCycle(nodes: seq<Behavior>) {
    exists p :: |p| > 1 && PrecedesPath(nodes, p) && p[0] == p[|p| - 1]
  }

  ghost predicate WaitsOnCycle(nodes: seq<Behavior>, id: NodeId) {
    exists p :: p != [] && PrecedesPath(nodes, p) && p[|p| - 1] == id && !Distinct(p)
  }

  lemma {:induction false} SameIdCycles(nodes: seq<Behavior>, edges: Edges<NodeId>)
    requires forall a, b :: (a, b) in edges <==> Precedes(nodes, a, b)
    ensures HasCycle(edges) <==> PrecedesCycle(nodes)
    ensures forall v :: AfterCycle(edges, v) <==> WaitsOnCycle(nodes, v)
  {
    forall p: seq<NodeId> ensures Path(edges, p) <==> PrecedesPath(nodes, p) {
    }
    if p :| |p| > 1 && PrecedesPath(nodes, p) && p[0] == p[|p| - 1] {
      assert Cycle(edges, p);
    }
    forall v ensures AfterCycle(edges, v) <==> WaitsOnCycle(nodes, v) {
      if p :| p != [] && PrecedesPath(nodes, p) && p[|p| - 1] == v && !Distinct(p) {
        assert LoopsInto(edges, p, v);
      }
    }
  }

  ghost predicate DepIdsDone(nodes: seq<Behavior>, n: nat, m: nat, before: Edges<NodeId>, edges: Edges<NodeId>)
    requires n < |nodes| && m <= |nodes[n].deps|
  {
    forall e :: e in edges <==>
      e in before || (e.1 == nodes[n].id && DepAmong(nodes, nodes[n].deps[..m], e.0))
  }

  ghost predicate DepAmong(nodes: seq<Behavior>, deps: seq<string>, a: NodeId) {
    exists d :: d in deps && FindNodeId(nodes, d) == Some(a)
  }

  lemma {:induction false} DepAmongSnoc(nodes: seq<Behavior>, deps: seq<string>, d: string, a: NodeId)
    ensures DepAmong(nodes, deps + [d], a) <==> DepAmong(nodes, deps, a) || FindNodeId(nodes, d) == Some(a)
  {
    assert d in deps + [d];
  }

  method AddDependents(nodes: seq<Behavior>, n: nat, adj0: map<NodeId, seq<NodeId>>, degree0: map<NodeId, nat>,
                       ghost before: Edges<NodeId>)
    returns (adj: map<NodeId, seq<NodeId>>, degree: map<NodeId, nat>, ghost edges: Edges<NodeId>)
    requires n < |nodes| && Represents(adj0, degree0, before)
    requires forall i :: 0 <= i < |nodes| ==> nodes[i].id in degree0
    ensures Represents(adj, degree, edges) && DepIdsDone(nodes, n, |nodes[n].deps|, before, edges)
    ensures degree.Keys == degree0.Keys
  {
    adj, degree, edges := adj0, degree0, before;
    var node := nodes[n];
    for m := 0 to |node.deps|
      invariant Represents(adj, degree, edges) && DepIdsDone(nodes, n, m, before, edges)
      invariant degree.Keys == degree0.Keys
    {
      var dep := node.deps[m];
      var depId := FindNodeId(nodes, dep);
      assert node.deps[..m + 1] == node.deps[..m] + [dep];
      forall a ensures DepAmong(nodes, node.deps[..m] + [dep], a)
                  <==> DepAmong(nodes, node.deps[..m], a) || depId == Some(a) {
        DepAmongSnoc(nodes, node.deps[..m], dep, a);
      }
      if depId.Some? {
        adj, degree := AddEdge(adj, degree, edges, depId.value, node.id);
        edges := edges + [(depId.value, node.id)];
      }
    }
  }

  lemma {:induction false} OneMoreId(nodes: seq<Behavior>, n: nat, before: Edges<NodeId>, edges: Edges<NodeId>)
    requires n < |nodes| && DepIdsDone(nodes, n, |nodes[n].deps|, before, edges)
    requires forall a, b :: (a, b) in before <==> PrecedesAmong(nodes, n, a, b)
    ensures forall a, b :: (a, b) in edges <==> PrecedesAmong(nodes, n + 1, a, b)
  {
    assert nodes[n].deps[..|nodes[n].deps|] == nodes[n].deps;
    forall a, b ensures (a, b) in edges <==> PrecedesAmong(nodes, n + 1, a, b) {
      assert (a, b) in before <==> PrecedesAmong(nodes, n, a, b);
      assert (a, b).0 == a && (a, b).1 == b;
    }
  }

  method IdGraph(nodes: seq<Behavior>)
    returns (adj: map<NodeId, seq<NodeId>>, degree: map<NodeId, nat>, ghost edges: Edges<NodeId>)
    ensures Represents(adj, degree, edges)
    ensures forall a, b :: (a, b) in edges <==> Precedes(nodes, a, b)
    ensures forall v :: v in degree <==> IsId(nodes, v)
  {
    adj, degree, edges := map[], map[], [];
    for n := 0 to |nodes|
      invariant adj == map[] && forall v :: v in degree ==> degree[v] == 0
      invariant forall v :: v in degree <==> exists i :: 0 <= i < n && nodes[i].id == v
    {
      degree := degree[nodes[n].id := 0];
    }
    for n := 0 to |nodes|
      invariant Represents(adj, degree, edges)
      invariant forall v :: v in degree <==> IsId(nodes, v)
      invariant forall a, b :: (a, b) in edges <==> PrecedesAmong(nodes, n, a, b)
    {
      ghost var before := edges;
      adj, degree, edges := AddDependents(nodes, n, adj, degree, edges);
      OneMoreId(nodes, n, before, edges);
    }
  }

  datatype Outcome = Ok(order: seq<NodeId>) | Err(inCycle: seq<string>)

  /** Everything a compilation order has to satisfy. */
  ghost predicate CompilationOrder(nodes: seq<Behavior>, order: seq<NodeId>) {
    && Distinct(order)
    && (forall v :: v in order <==> IsId(nodes, v))
    && (forall j, a :: 0 <= j < |order| && Precedes(nodes, a, order[j]) ==> a in order[..j])
  }

  /** In a compilation order the first behavior of each name that a clause requires comes before the
      behavior with the clause. */
  lemma {:induction false} DependenciesFirst(nodes: seq<Behavior>, order: seq<NodeId>, i: nat, k: nat, p: nat)
    requires CompilationOrder(nodes, order) && i < |nodes| && k < |nodes| && nodes[k].name in nodes[i].deps
    requires (forall j :: 0 <= j < k ==> nodes[j].name != nodes[k].name) && p < |order| && order[p] == nodes[i].id
    ensures exists q :: 0 <= q < p && order[q] == nodes[k].id
  {
    PrecedesExactly(nodes, nodes[k].id, nodes[i].id);
    assert nodes[k].id in order[..p];
  }

  ghost predicate Stuck(nodes: seq<Behavior>, name: string) {
    exists i :: 0 <= i < |nodes| && nodes[i].name == name && WaitsOnCycle(nodes, nodes[i].id)
  }

  /** topological_sort succeeds exactly when there is no cycle, and then every local behavior
      is in the order once, dependencies before dependents. */
  method TopologicalSort(graph: Graph) returns (r: Outcome)
    requires UniqueIds(graph.nodes)
    ensures r.Ok? <==> !PrecedesCycle(graph.nodes)
    ensures r.Ok? ==> CompilationOrder(graph.nodes, r.order)
    ensures r.Err? ==> r.inCycle != []
    ensures r.Err? ==> forall name :: name in r.inCycle <==> Stuck(graph.nodes, name)
  {
    var adj, degree, edges := IdGraph(graph.nodes);
    var order, left := Sort(adj, degree, edges);
    CountTells(order, left.Keys);
    SameIdCycles(graph.nodes, edges);
    CycleHasNodes(edges);
    forall v | AfterCycle(edges, v) ensures v in degree {
      AfterCycleIsNode(adj, degree, edges, v);
    }
    if |order| < |left| {
      var stuck := Positive(left);
      var v :| v in left && v !in order;
      assert v in stuck;
      var names := NamesOf(graph.nodes, stuck);
      StuckNames(graph.nodes, stuck, names);
      r := Err(names);
    } else {
      OrderCompiles(graph.nodes, edges, order);
      r := Ok(order);
    }
  }

  lemma {:induction false} OrderCompiles(nodes: seq<Behavior>, edges: Edges<NodeId>, order: seq<NodeId>)
    requires forall a, b :: (a, b) in edges <==> Precedes(nodes, a, b)
    requires Distinct(order) && Ordered(edges, order) && forall v :: v in order <==> IsId(nodes, v)
    ensures CompilationOrder(nodes, order)
  {
    forall j, a | 0 <= j < |order| && Precedes(nodes, a, order[j]) ensures a in order[..j] {
      assert (a, order[j]) in edges;
    }
  }

  lemma {:induction false} StuckNames(nodes: seq<Behavior>, ids: seq<NodeId>, names: seq<string>)
    requires forall x :: x in ids <==> IsId(nodes, x) && WaitsOnCycle(nodes, x)
    requires forall name :: name in names <==>
               exists i :: 0 <= i < |nodes| && nodes[i].name == name && nodes[i].id in ids
    ensures forall name :: name in names <==> Stuck(nodes, name)
  {
    forall name ensures name in names <==> Stuck(nodes, name) {
      if Stuck(nodes, name) {
        var i :| 0 <= i < |nodes| && nodes[i].name == name && WaitsOnCycle(nodes, nodes[i].id);
        assert nodes[i].id in ids;
      }
      if name in names {
        var i :| 0 <= i < |nodes| && nodes[i].name == name && nodes[i].id in ids;
        assert WaitsOnCycle(nodes, nodes[i].id);
      }
    }
  }

  method NamesOf(nodes: seq<Behavior>, ids: seq<NodeId>) returns (names: seq<string>)
    requires UniqueIds(nodes) && forall v :: v in ids ==> IsId(nodes, v)
    ensures |names| == |ids|
    ensures forall name :: name in names <==>
              exists i :: 0 <= i < |nodes| && nodes[i].name == name && nodes[i].id in ids
  {
    names := [];
    for k := 0 to |ids|
      invariant |names| == k
      invariant forall name :: name in names <==>
                  exists i :: 0 <= i < |nodes| && nodes[i].name == name && nodes[i].id in ids[..k]
    {
      assert ids[..k + 1] == ids[..k] + [ids[k]];
      assert ids[k] in ids;
      var i :| 0 <= i < |nodes| && nodes[i].id == ids[k];
      names := names + [nodes[i].name];
    }
    assert ids[..|ids|] == ids;
  }

  // ----- the two checks agree ---------------------------------------------------------------------

  ghost function IdOf(nodes: seq<Behavior>, name: string): NodeId {
    var r := FindNodeId(nodes, name);
    if r.Some? then r.value else 0
  }

  lemma {:induction false} RequiresIsPrecedes(nodes: seq<Behavior>, a: string, b: string)
    requires UniqueNames(nodes) && Requires(nodes, a, b)
    ensures Precedes(nodes, IdOf(nodes, b), IdOf(nodes, a))
  {
    var i :| 0 <= i < |nodes| && nodes[i].name == a && b in nodes[i].deps && Local(nodes, b);
    assert FindNode(nodes, a) == Some(i);
  }

  lemma {:induction false} StepBack(nodes: seq<Behavior>, p: seq<string>, i: nat, j: nat)
    requires UniqueNames(nodes) && RequiresPath(nodes, p) && j == i + 1 < |p|
    ensures Precedes(nodes, IdOf(nodes, p[j]), IdOf(nodes, p[i]))
  {
    RequiresIsPrecedes(nodes, p[i], p[j]);
  }

  /** Reading a REQUIRES path backwards gives a path of ids. */
  lemma {:induction false} PathBack(nodes: seq<Behavior>, p: seq<string>, q: seq<NodeId>)
    requires |q| == |p| && forall k {:trigger q[k]} :: 0 <= k < |q| ==> q[k] == IdOf(nodes, p[|p| - 1 - k])
    requires forall i: nat, j: nat {:trigger p[i], p[j]} :: j == i + 1 < |p| ==>
               Precedes(nodes, IdOf(nodes, p[j]), IdOf(nodes, p[i]))
    ensures PrecedesPath(nodes, q)
  {
    var n := |p| - 1;
    forall i, j | 0 <= i < |q| && 0 <= j < |q| && j == i + 1 ensures Precedes(nodes, q[i], q[j]) {
      assert Precedes(nodes, IdOf(nodes, p[n - i]), IdOf(nodes, p[n - j]));
    }
  }

  lemma {:induction false} NameCycleIsIdCycle(nodes: seq<Behavior>, p: seq<string>)
    requires UniqueNames(nodes) && |p| > 1 && RequiresPath(nodes, p) && p[0] == p[|p| - 1]
    ensures PrecedesCycle(nodes)
  {
    var q := seq(|p|, k requires 0 <= k < |p| => IdOf(nodes, p[|p| - 1 - k]));
    forall i: nat, j: nat | j == i + 1 < |p| ensures Precedes(nodes, IdOf(nodes, p[j]), IdOf(nodes, p[i])) {
      StepBack(nodes, p, i, j);
    }
    PathBack(nodes, p, q);
  }

  lemma {:induction false} NamesBack(nodes: seq<Behavior>, q: seq<NodeId>, p: seq<string>)
    requires |p| == |q| && forall k {:trigger p[k]} :: 0 <= k < |p| ==> p[k] == NameOf(nodes, q[|q| - 1 - k])
    requires forall i: nat, j: nat {:trigger q[i], q[j]} :: j == i + 1 < |q| ==>
               Requires(nodes, NameOf(nodes, q[j]), NameOf(nodes, q[i]))
    ensures RequiresPath(nodes, p)
  {
    var n := |q| - 1;
    forall i, j | 0 <= i < |p| && 0 <= j < |p| && j == i + 1 ensures Requires(nodes, p[i], p[j]) {
      assert Requires(nodes, NameOf(nodes, q[n - i]), NameOf(nodes, q[n - j]));
    }
  }

  lemma {:induction false} IdCycleIsNameCycle(nodes: seq<Behavior>, q: seq<NodeId>)
    requires UniqueIds(nodes) && |q| > 1 && PrecedesPath(nodes, q) && q[0] == q[|q| - 1]
    ensures RequiresCycle(nodes)
  {
    var p := seq(|q|, k requires 0 <= k < |q| => NameOf(nodes, q[|q| - 1 - k]));
    forall i: nat, j: nat | j == i + 1 < |q| ensures Requires(nodes, NameOf(nodes, q[j]), NameOf(nodes, q[i])) {
      PrecedesIsRequires(nodes, q[i], q[j]);
    }
    NamesBack(nodes, q, p);
  }

  ghost function NameOf(nodes: seq<Behavior>, id: NodeId): string {
    if IsId(nodes, id) then
      var i :| 0 <= i < |nodes| && nodes[i].id == id;
      nodes[i].name
    else ""
  }

  lemma {:induction false} NameOfId(nodes: seq<Behavior>, i: nat)
    requires UniqueIds(nodes) && i < |nodes|
    ensures NameOf(nodes, nodes[i].id) == nodes[i].name
  {
  }

  lemma {:induction false} PrecedesIsRequires(nodes: seq<Behavior>, a: NodeId, b: NodeId)
    requires UniqueIds(nodes) && Precedes(nodes, a, b)
    ensures Requires(nodes, NameOf(nodes, b), NameOf(nodes, a))
  {
    var i, d :| 0 <= i < |nodes| && nodes[i].id == b && d in nodes[i].deps && FindNodeId(nodes, d) == Some(a);
    NameOfId(nodes, i);
    NameOfId(nodes, FindNode(nodes, d).value);
  }

  /** With unique names the two algorithms, one keyed by names and one by ids with the edges
      turned round, give the same verdict. */
  lemma {:induction false} CyclesAgree(nodes: seq<Behavior>)
    requires UniqueNames(nodes) && UniqueIds(nodes)
    ensures RequiresCycle(nodes) <==> PrecedesCycle(nodes)
  {
    if p :| |p| > 1 && RequiresPath(nodes, p) && p[0] == p[|p| - 1] {
      NameCycleIsIdCycle(nodes, p);
    }
    if q :| |q| > 1 && PrecedesPath(nodes, q) && q[0] == q[|q| - 1] {
      IdCycleIsNameCycle(nodes, q);
    }
  }
}
