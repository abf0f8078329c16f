/** The dataflow pass of compiler/src/cfg.rs:383-538: what its fixpoint says about executions
    that loop as often as they like. */
module DataFlow {
  import opened Common
  import opened Ast
  import opened CfgBuilder
  import opened CfgMeaning
  import opened CfgPaths
  import opened Termination

  datatype State = State(initialized: set<string>, freed: set<string>, live: set<string>, written: set<string>)

  const Nothing := State({}, {}, {}, {})

  function Merge(a: State, b: State): State {
    State(a.initialized * b.initialized, a.freed + b.freed, a.live + b.live, a.written * b.written)
  }

  function ApplyNode(s: State, node: Node): State {
    match node
    case Assignment(target, expr) =>
      var s := if expr.Alloc? then s.(live := s.live + {target}) else s;
      s.(initialized := s.initialized + {target})
    case Store(target, _, _) => s.(initialized := s.initialized + {target}, written := s.written + {target})
    case Set(target, _) => s.(written := s.written + {target})
    case Free(name) => s.(freed := s.freed + {name}, live := s.live - {name})
    case _ => s
  }

  /** The effect of visiting statements in turn. */
  function ApplyAll(nodes: seq<Node>, s: State, visits: seq<nat>): State {
    if visits == [] then s
    else
      var t, i := ApplyAll(nodes, s, visits[..|visits| - 1]), visits[|visits| - 1];
      if i < |nodes| then ApplyNode(t, nodes[i]) else t
  }

  function Run(nodes: seq<Node>, visits: seq<nat>): State { ApplyAll(nodes, Nothing, visits) }

  lemma {:induction false} ApplyAllConcat(nodes: seq<Node>, s: State, a: seq<nat>, b: seq<nat>)
    ensures ApplyAll(nodes, s, a + b) == ApplyAll(nodes, ApplyAll(nodes, s, a), b)
  {
    if b == [] {
      assert a + b == a;
    } else {
      var n := |b| - 1;
      ApplyAllConcat(nodes, s, a, b[..n]);
      assert (a + b)[..|a + b| - 1] == a + b[..n];
    }
  }

  // ----- what a run leaves behind, without reference to states ------------------------------

  predicate Stores(nodes: seq<Node>, i: nat, o: string) {
    i < |nodes| && ((nodes[i].Store? || nodes[i].Set?) && nodes[i].target == o)
  }

  /** Some visited STORE or SET targets o. */
  ghost predicate Written(nodes: seq<Node>, visits: seq<nat>, o: string) {
    exists i :: 0 <= i < |visits| && Stores(nodes, visits[i], o)
  }

  predicate Allocates(nodes: seq<Node>, i: nat, x: string) {
    i < |nodes| && nodes[i].Assignment? && nodes[i].target == x && nodes[i].expr.Alloc?
  }

  predicate Frees(nodes: seq<Node>, i: nat, x: string) { i < |nodes| && nodes[i] == Free(x) }

  /** x is allocated at some visit and not freed at any later one. */
  ghost predicate LeftAllocated(nodes: seq<Node>, visits: seq<nat>, x: string) {
    exists i :: 0 <= i < |visits| && Allocates(nodes, visits[i], x)
             && forall j :: i < j < |visits| ==> !Frees(nodes, visits[j], x)
  }

  lemma {:induction false} RunWritten(nodes: seq<Node>, visits: seq<nat>, o: string)
    ensures o in Run(nodes, visits).written <==> Written(nodes, visits, o)
  {
    if visits != [] {
      var n := |visits| - 1;
      var v := visits[..n];
      RunWritten(nodes, v, o);
      if Written(nodes, v, o) {
        var i :| 0 <= i < |v| && Stores(nodes, v[i], o);
        assert visits[i] == v[i];
      }
      if i :| 0 <= i < n && Stores(nodes, visits[i], o) {
        assert v[i] == visits[i];
      }
      assert Stores(nodes, visits[n], o) ==> Written(nodes, visits, o);
    }
  }

  lemma {:induction false} LeftAllocatedSnoc(nodes: seq<Node>, v: seq<nat>, k: nat, x: string)
    ensures LeftAllocated(nodes, v + [k], x) <==>
              Allocates(nodes, k, x) || (LeftAllocated(nodes, v, x) && !Frees(nodes, k, x))
  {
    var all := v + [k];
    if Allocates(nodes, k, x) {
      assert Allocates(nodes, all[|v|], x);
    }
    if LeftAllocated(nodes, v, x) && !Frees(nodes, k, x) {
      var i :| 0 <= i < |v| && Allocates(nodes, v[i], x)
               && forall j :: i < j < |v| ==> !Frees(nodes, v[j], x);
      assert Allocates(nodes, all[i], x);
      assert forall j :: i < j < |all| ==> !Frees(nodes, all[j], x);
    }
    if LeftAllocated(nodes, all, x) && !Allocates(nodes, k, x) {
      var i :| 0 <= i < |all| && Allocates(nodes, all[i], x)
               && forall j :: i < j < |all| ==> !Frees(nodes, all[j], x);
      assert all[|v|] == k && Allocates(nodes, v[i], x);
      assert forall j :: i < j < |v| ==> v[j] == all[j];
    }
  }

  lemma {:induction false} RunAllocated(nodes: seq<Node>, visits: seq<nat>, x: string)
    ensures x in Run(nodes, visits).live <==> LeftAllocated(nodes, visits, x)
  {
    if visits != [] {
      var n := |visits| - 1;
      RunAllocated(nodes, visits[..n], x);
      LeftAllocatedSnoc(nodes, visits[..n], visits[n], x);
      assert visits[..n] + [visits[n]] == visits;
    }
  }

  // ----- block states -----------------------------------------------------------------------

  /** Merge of the known predecessor states, in order. */
  function Known(states: map<nat, State>, preds: seq<nat>): Option<State> {
    if preds == [] then None
    else
      var m, p := Known(states, preds[..|preds| - 1]), preds[|preds| - 1];
      if p !in states then m
      else if m.None? then Some(states[p])
      else Some(Merge(m.value, states[p]))
  }

  function Input(states: map<nat, State>, preds: seq<nat>): State {
    var m := Known(states, preds);
    if m.Some? then m.value else Nothing
  }

  function Out(cfg: Cfg, nodes: seq<Node>, states: map<nat, State>, k: nat): State
    requires k < |cfg.blocks|
  {
    ApplyAll(nodes, Input(states, cfg.blocks[k].predecessors), cfg.blocks[k].statements)
  }

  method MergePredecessors(states: map<nat, State>, preds: seq<nat>) returns (s: State)
    ensures s == Input(states, preds)
  {
    var merged: Option<State> := None;
    for i := 0 to |preds|
      invariant merged == Known(states, preds[..i])
    {
      assert preds[..i + 1][..i] == preds[..i];
      if preds[i] in states {
        merged := Some(if merged.None? then states[preds[i]] else Merge(merged.value, states[preds[i]]));
      }
    }
    assert preds[..|preds|] == preds;
    s := if merged.Some? then merged.value else Nothing;
  }

  method ApplyStatements(nodes: seq<Node>, input: State, statements: seq<nat>) returns (s: State)
    ensures s == ApplyAll(nodes, input, statements)
  {
    s := input;
    for i := 0 to |statements|
      invariant s == ApplyAll(nodes, input, statements[..i])
    {
      assert statements[..i + 1][..i] == statements[..i];
      if statements[i] < |nodes| {
        s := ApplyNode(s, nodes[statements[i]]);
      }
    }
    assert statements[..|statements|] == statements;
  }

  /** Predecessor lists mirror successor lists. */
  ghost predicate Linked(cfg: Cfg) {
    forall k, p: nat {:trigger p in cfg.blocks[k].predecessors} :: 0 <= k < |cfg.blocks| ==>
      (p in cfg.blocks[k].predecessors <==> p < |cfg.blocks| && k in cfg.blocks[p].successors)
  }

  ghost predicate Built(cfg: Cfg) { Listed(cfg) && ExitsStop(cfg) && Linked(cfg) }

  ghost predicate FixedUpTo(cfg: Cfg, nodes: seq<Node>, states: map<nat, State>, n: nat) {
    forall k {:trigger k in states} :: 0 <= k < n && k < |cfg.blocks| ==>
      k in states && states[k] == Out(cfg, nodes, states, k)
  }

  /** Every block's state is what its predecessors' states make it. */
  ghost predicate Fixpoint(cfg: Cfg, nodes: seq<Node>, states: map<nat, State>) {
    FixedUpTo(cfg, nodes, states, |cfg.blocks|)
  }

  // ----- the transfer functions are monotone, name by name --------------------------------------

  lemma {:induction false} ApplyPointwise(nodes: seq<Node>, s: State, t: State, v: seq<nat>, x: string)
    ensures (x in s.live ==> x in t.live) ==>
              (x in ApplyAll(nodes, s, v).live ==> x in ApplyAll(nodes, t, v).live)
    ensures (x in s.freed ==> x in t.freed) ==>
              (x in ApplyAll(nodes, s, v).freed ==> x in ApplyAll(nodes, t, v).freed)
    ensures (x in s.written ==> x in t.written) ==>
              (x in ApplyAll(nodes, s, v).written ==> x in ApplyAll(nodes, t, v).written)
    ensures (x in s.initialized ==> x in t.initialized) ==>
              (x in ApplyAll(nodes, s, v).initialized ==> x in ApplyAll(nodes, t, v).initialized)
  {
    if v != [] {
      ApplyPointwise(nodes, s, t, v[..|v| - 1], x);
    }
  }

  /** "may" facts: whatever concrete run c has, abstract state a has too. */
  predicate May(a: State, c: State) { c.live <= a.live && c.freed <= a.freed }

  /** "must" facts: whatever a claims, c has. */
  predicate Must(a: State, c: State) { a.written <= c.written && a.initialized <= c.initialized }

  lemma {:induction false} ApplyKeepsMay(nodes: seq<Node>, a: State, c: State, v: seq<nat>)
    requires May(a, c)
    ensures May(ApplyAll(nodes, a, v), ApplyAll(nodes, c, v))
  {
    forall x ensures
      && (x in ApplyAll(nodes, c, v).live ==> x in ApplyAll(nodes, a, v).live)
      && (x in ApplyAll(nodes, c, v).freed ==> x in ApplyAll(nodes, a, v).freed)
    {
      ApplyPointwise(nodes, c, a, v, x);
    }
  }

  lemma {:induction false} ApplyKeepsMust(nodes: seq<Node>, a: State, c: State, v: seq<nat>)
    requires Must(a, c)
    ensures Must(ApplyAll(nodes, a, v), ApplyAll(nodes, c, v))
  {
    forall x ensures
      && (x in ApplyAll(nodes, a, v).written ==> x in ApplyAll(nodes, c, v).written)
      && (x in ApplyAll(nodes, a, v).initialized ==> x in ApplyAll(nodes, c, v).initialized)
    {
      ApplyPointwise(nodes, a, c, v, x);
    }
  }

  /** The merge may lose must-facts and gain may-facts of each known predecessor, no more. */
  lemma {:induction false} InputBounds(states: map<nat, State>, preds: seq<nat>, p: nat)
    requires p in preds && p in states
    ensures Known(states, preds).Some?
    ensures May(Known(states, preds).value, states[p]) && Must(Known(states, preds).value, states[p])
  {
    var n := |preds| - 1;
    if p in preds[..n] {
      InputBounds(states, preds[..n], p);
    } else {
      assert p == preds[n];
    }
  }

  // ----- a converged analysis covers every walk ---------------------------------------------------

  lemma {:induction false} VisitsSnoc(cfg: Cfg, nodes: seq<Node>, w: seq<nat>, k: nat)
    requires k < |cfg.blocks| && forall i :: 0 <= i < |w| ==> w[i] < |cfg.blocks|
    ensures Visits(cfg, w + [k]) == Visits(cfg, w) + cfg.blocks[k].statements
    ensures Run(nodes, Visits(cfg, w + [k])) == ApplyAll(nodes, Run(nodes, Visits(cfg, w)), cfg.blocks[k].statements)
  {
    assert (w + [k])[..|w|] == w;
    ApplyAllConcat(nodes, Nothing, Visits(cfg, w), cfg.blocks[k].statements);
  }

  /** The fixpoint along one edge. */
  lemma {:induction false} FixpointEdge(cfg: Cfg, nodes: seq<Node>, states: map<nat, State>, a: nat, k: nat, c: State)
    requires Built(cfg) && Fixpoint(cfg, nodes, states) && Edge(cfg, a, k)
    ensures a in states && k in states
    ensures May(states[a], c) ==> May(states[k], ApplyAll(nodes, c, cfg.blocks[k].statements))
    ensures Must(states[a], c) ==> Must(states[k], ApplyAll(nodes, c, cfg.blocks[k].statements))
  {
    assert a in states && k in states;
    var preds := cfg.blocks[k].predecessors;
    assert a in preds;
    InputBounds(states, preds, a);
    var input := Input(states, preds);
    if May(states[a], c) {
      ApplyKeepsMay(nodes, input, c, cfg.blocks[k].statements);
    }
    if Must(states[a], c) {
      ApplyKeepsMust(nodes, input, c, cfg.blocks[k].statements);
    }
  }

  lemma {:induction false} LastEdge(cfg: Cfg, w: seq<nat>)
    requires Walk(cfg, w) && |w| > 1
    ensures Edge(cfg, Last(w[..|w| - 1]), Last(w))
  {
    var n := |w| - 1;
    assert Edge(cfg, w[n - 1], w[n]);
  }

  /** Handles allocated and not freed along a walk are in the state of its last block, whatever
      the entry block looks like. */
  lemma {:induction false} FixpointCoversWalks(cfg: Cfg, nodes: seq<Node>, states: map<nat, State>, w: seq<nat>)
    requires Built(cfg) && Fixpoint(cfg, nodes, states) && Walk(cfg, w)
    ensures Last(w) in states && May(states[Last(w)], Run(nodes, Visits(cfg, w)))
  {
    var n := |w| - 1;
    assert w == w[..n] + [w[n]];
    VisitsSnoc(cfg, nodes, w[..n], w[n]);
    if n == 0 {
      assert w[n] in states;
      assert w[..n] == [];
      ApplyKeepsMay(nodes, Input(states, cfg.blocks[w[n]].predecessors), Nothing, cfg.blocks[w[n]].statements);
    } else {
      WalkPrefix(cfg, w, n);
      FixpointCoversWalks(cfg, nodes, states, w[..n]);
      LastEdge(cfg, w);
      FixpointEdge(cfg, nodes, states, Last(w[..n]), w[n], Run(nodes, Visits(cfg, w[..n])));
    }
  }

  // ----- sweeps -----------------------------------------------------------------------------------------

  /** The states after the first n blocks of a sweep. */
  function SweptTo(cfg: Cfg, nodes: seq<Node>, states: map<nat, State>, n: nat): map<nat, State>
    requires n <= |cfg.blocks|
  {
    if n == 0 then states
    else
      var s := SweptTo(cfg, nodes, states, n - 1);
      s[n - 1 := Out(cfg, nodes, s, n - 1)]
  }

  /** The states after n sweeps. */
  function Sweeps(cfg: Cfg, nodes: seq<Node>, n: nat): map<nat, State> {
    if n == 0 then map[cfg.entry := Nothing]
    else SweptTo(cfg, nodes, Sweeps(cfg, nodes, n - 1), |cfg.blocks|)
  }
}
