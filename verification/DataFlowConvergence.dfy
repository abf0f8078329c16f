/** When the sweeps of the dataflow pass, compiler/src/cfg.rs:463-515, converge: if every block
    but the first has an earlier predecessor and the entry is alone. */
module DataFlowConvergence {
  import opened Common
  import opened Ast
  import opened CfgBuilder
  import opened CfgMeaning
  import opened CfgPaths
  import opened Termination
  import opened DataFlow
  import opened DataFlowSweeps
  import opened DataFlowReports
  import opened DataFlowPass

  // ----- outputs and handles ---------------------------------------------------------------

  lemma {:induction false} ForwardArrives(cfg: Cfg, k: nat)
    requires Built(cfg) && Forward(cfg) && k < |cfg.blocks|
    ensures Arrives(cfg, k)
    decreases k
  {
    if k == 0 {
      assert Walk(cfg, [cfg.entry]) && Last([cfg.entry]) == 0;
    } else {
      var preds := cfg.blocks[k].predecessors;
      assert EarlierPredecessor(preds, k);
      var i :| 0 <= i < |preds| && preds[i] < k;
      assert preds[i] in preds && k in cfg.blocks[preds[i]].successors;
      ForwardArrives(cfg, preds[i]);
      var w :| Walk(cfg, w) && Last(w) == preds[i];
      WalkExtends(cfg, w, k);
      assert Walk(cfg, w + [k]) && Last(w + [k]) == k;
    }
  }

  lemma {:induction false} ForwardIsFromEntry(cfg: Cfg, k: nat)
    requires Built(cfg) && Forward(cfg)
    ensures FromEntry(cfg, k)
  {
    forall u: nat | Reaches(cfg, u, k) ensures Arrives(cfg, u) {
      ForwardArrives(cfg, u);
    }
  }

  /** After n sweeps: exactly the outputs that no walk misses are claimed, and exactly the
      handles that some walk leaves allocated. */
  ghost predicate Exact(cfg: Cfg, nodes: seq<Node>, n: nat) {
    var states := Sweeps(cfg, nodes, n);
    && (forall k: nat :: k in states <==> k < |cfg.blocks|)
    && (forall k, o :: k in states ==> (o in states[k].written <==> !Missable(cfg, nodes, k, o)))
    && (forall k, x :: k in states ==> (x in states[k].live <==> Carried(cfg, nodes, k, x)))
  }

  lemma {:induction false} EnoughSweepsAreExact(cfg: Cfg, nodes: seq<Node>, n: nat)
    requires Built(cfg) && Forward(cfg) && EntryAlone(cfg) && n >= |cfg.blocks|
    ensures Exact(cfg, nodes, n)
  {
    var states := Sweeps(cfg, nodes, n);
    ForwardIsRooted(cfg);
    SweepsTraceMisses(cfg, nodes, n);
    SweepsTraced(cfg, nodes, n);
    forall k, o | k in states ensures o in states[k].written <==> !Missable(cfg, nodes, k, o) {
      if w :| Walk(cfg, w) && Last(w) == k && o !in Run(nodes, Visits(cfg, w)).written {
        RunWritten(nodes, Visits(cfg, w), o);
        EnoughForMisses(cfg, nodes, n, w, o);
      }
    }
    forall k, x | k in states ensures x in states[k].live <==> Carried(cfg, nodes, k, x) {
      ForwardIsFromEntry(cfg, k);
      if w :| Walk(cfg, w) && Last(w) == k && x in Run(nodes, Visits(cfg, w)).live {
        EnoughForLeaks(cfg, nodes, n, w, x);
      }
    }
  }

  // ----- initialized and freed names -----------------------------------------------------------

  /** What initializes a name stores to it instead, what frees a name allocates it. */
  function ShadowNode(node: Node): Node {
    match node
    case Assignment(target, _) => Store(target, Literal, None)
    case Store(target, _, _) => node
    case Free(name) => Assignment(name, Alloc)
    case _ => Other
  }

  function Shadow(nodes: seq<Node>): seq<Node> {
    seq(|nodes|, i requires 0 <= i < |nodes| => ShadowNode(nodes[i]))
  }

  predicate Shadows(a: State, b: State) { b.written == a.initialized && b.live == a.freed }

  lemma {:induction false} ApplyShadows(nodes: seq<Node>, a: State, b: State, v: seq<nat>)
    requires Shadows(a, b)
    ensures Shadows(ApplyAll(nodes, a, v), ApplyAll(Shadow(nodes), b, v))
  {
    if v != [] {
      ApplyShadows(nodes, a, b, v[..|v| - 1]);
    }
  }

  ghost predicate StatesShadow(s: map<nat, State>, t: map<nat, State>) {
    forall k: nat :: (k in s <==> k in t) && (k in s ==> Shadows(s[k], t[k]))
  }

  lemma {:induction false} KnownShadows(s: map<nat, State>, t: map<nat, State>, preds: seq<nat>)
    requires StatesShadow(s, t)
    ensures Known(s, preds).Some? <==> Known(t, preds).Some?
    ensures Known(s, preds).Some? ==> Shadows(Known(s, preds).value, Known(t, preds).value)
  {
    if preds != [] {
      KnownShadows(s, t, preds[..|preds| - 1]);
    }
  }

  lemma {:induction false} SweptShadows(cfg: Cfg, nodes: seq<Node>, s: map<nat, State>, t: map<nat, State>, i: nat)
    requires StatesShadow(s, t) && i <= |cfg.blocks|
    ensures StatesShadow(SweptTo(cfg, nodes, s, i), SweptTo(cfg, Shadow(nodes), t, i))
  {
    if i > 0 {
      SweptShadows(cfg, nodes, s, t, i - 1);
      var s1, t1 := SweptTo(cfg, nodes, s, i - 1), SweptTo(cfg, Shadow(nodes), t, i - 1);
      var preds := cfg.blocks[i - 1].predecessors;
      KnownShadows(s1, t1, preds);
      ApplyShadows(nodes, Input(s1, preds), Input(t1, preds), cfg.blocks[i - 1].statements);
    }
  }

  /** The sweeps over the shadow compute as outputs and handles what the sweeps over the
      statements compute as initialized and freed names. */
  lemma {:induction false} SweepsShadow(cfg: Cfg, nodes: seq<Node>, n: nat)
    ensures StatesShadow(Sweeps(cfg, nodes, n), Sweeps(cfg, Shadow(nodes), n))
  {
    if n > 0 {
      SweepsShadow(cfg, nodes, n - 1);
      SweptShadows(cfg, nodes, Sweeps(cfg, nodes, n - 1), Sweeps(cfg, Shadow(nodes), n - 1), |cfg.blocks|);
    }
  }

  // ----- the theorem ------------------------------------------------------------------------------

  lemma {:induction false} SameSets<T>(a: set<T>, b: set<T>)
    requires forall x :: x in a <==> x in b
    ensures a == b
  {
  }

  lemma {:induction false} SameOutputsAndHandles(cfg: Cfg, nodes: seq<Node>, n: nat, m: nat, k: nat)
    requires Exact(cfg, nodes, n) && Exact(cfg, nodes, m) && k < |cfg.blocks|
    ensures k in Sweeps(cfg, nodes, n) && k in Sweeps(cfg, nodes, m)
    ensures Sweeps(cfg, nodes, n)[k].written == Sweeps(cfg, nodes, m)[k].written
    ensures Sweeps(cfg, nodes, n)[k].live == Sweeps(cfg, nodes, m)[k].live
  {
    var a, b := Sweeps(cfg, nodes, n), Sweeps(cfg, nodes, m);
    assert k in a && k in b;
    SameSets(a[k].written, b[k].written);
    SameSets(a[k].live, b[k].live);
  }

  /** If every block but the first has an earlier predecessor and the entry is alone, then no
      sweep changes anything any more after as many sweeps as there are blocks. */
  lemma {:induction false} ForwardSettles(cfg: Cfg, nodes: seq<Node>, n: nat)
    requires Built(cfg) && Forward(cfg) && EntryAlone(cfg) && n >= |cfg.blocks|
    ensures Sweeps(cfg, nodes, n) == Sweeps(cfg, nodes, |cfg.blocks|)
  {
    var m := |cfg.blocks|;
    var a, b := Sweeps(cfg, nodes, n), Sweeps(cfg, nodes, m);
    EnoughSweepsAreExact(cfg, nodes, n);
    EnoughSweepsAreExact(cfg, nodes, m);
    EnoughSweepsAreExact(cfg, Shadow(nodes), n);
    EnoughSweepsAreExact(cfg, Shadow(nodes), m);
    SweepsShadow(cfg, nodes, n);
    SweepsShadow(cfg, nodes, m);
    forall k: nat ensures (k in a <==> k in b) && (k in a ==> a[k] == b[k]) {
      if k < m {
        SameOutputsAndHandles(cfg, nodes, n, m, k);
        SameOutputsAndHandles(cfg, Shadow(nodes), n, m, k);
      }
    }
  }

  lemma {:induction false} ForwardConverges(cfg: Cfg, nodes: seq<Node>)
    requires Built(cfg) && Forward(cfg) && EntryAlone(cfg) && |cfg.blocks| < MaxIterations
    ensures Converges(cfg, nodes)
  {
    var n: nat := |cfg.blocks|;
    ForwardSettles(cfg, nodes, n + 1);
    assert Stable(cfg, nodes, n);
  }

  /** The same for a statement list: every statement but the first may follow an earlier one, and
      nothing leads back to the first but the straight piece it begins. */
  lemma {:induction false} OnwardConverges(nodes: seq<Node>, cfg: Cfg)
    requires CfgOf(nodes, cfg) && Onward(nodes) && (NoWayBack(nodes) || BackAtOnce(nodes)) && |nodes| < MaxIterations
    ensures Converges(cfg, nodes)
  {
    BuiltIsBuilt(nodes, cfg);
    if nodes == [] {
      EmptyGraph(cfg);
    } else {
      BuiltInOrder(nodes, cfg);
      OnwardMeansForward(nodes, cfg);
      EntryAloneMeans(nodes, cfg);
    }
    ForwardConverges(cfg, nodes);
  }
}
