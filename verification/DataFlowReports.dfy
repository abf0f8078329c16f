/** When what the dataflow pass, compiler/src/cfg.rs:455-538, reports is true: every leak, and
    every unwritten output. */
module DataFlowReports {
  import opened Ast
  import opened CfgBuilder
  import opened CfgMeaning
  import opened CfgPaths
  import opened WritesOutput
  import opened Termination
  import opened DataFlow
  import opened DataFlowSweeps

  /** Some walk arrives at the end of block k with x allocated and not freed. */
  ghost predicate Carried(cfg: Cfg, nodes: seq<Node>, k: nat, x: string) {
    exists w :: Walk(cfg, w) && Last(w) == k && x in Run(nodes, Visits(cfg, w)).live
  }

  ghost predicate Arrives(cfg: Cfg, k: nat) { exists w :: Walk(cfg, w) && Last(w) == k }

  ghost predicate AllArrive(cfg: Cfg) { forall k: nat :: k < |cfg.blocks| ==> Arrives(cfg, k) }

  /** Every block from which k can be reached can itself be reached from the entry. */
  ghost predicate FromEntry(cfg: Cfg, k: nat) { forall u: nat :: Reaches(cfg, u, k) ==> Arrives(cfg, u) }

  /** No unreachable block leads to an exit. */
  ghost predicate NoStrayExit(cfg: Cfg) { forall e :: e in cfg.exits ==> FromEntry(cfg, e) }

  // ----- no invented leaks ----------------------------------------------------------------------

  /** No state of a block without stray ancestors claims an allocation that no walk makes. */
  ghost predicate Traced(cfg: Cfg, nodes: seq<Node>, states: map<nat, State>) {
    && (forall k :: k in states ==> k < |cfg.blocks|)
    && forall k, x :: k in states && FromEntry(cfg, k) && x in states[k].live ==> Carried(cfg, nodes, k, x)
  }

  lemma {:induction false} InputTraced(states: map<nat, State>, preds: seq<nat>, x: string) returns (p: nat)
    requires x in Input(states, preds).live
    ensures p in preds && p in states && x in states[p].live
  {
    var n := |preds| - 1;
    if preds[n] in states && x in states[preds[n]].live {
      p := preds[n];
    } else {
      p := InputTraced(states, preds[..n], x);
    }
  }

  lemma {:induction false} PredecessorFromEntry(cfg: Cfg, p: nat, k: nat)
    requires FromEntry(cfg, k) && p < |cfg.blocks| && k < |cfg.blocks| && k in cfg.blocks[p].successors
    ensures FromEntry(cfg, p)
  {
    forall u: nat | Reaches(cfg, u, p) ensures Arrives(cfg, u) {
      ReachesOneMore(cfg, u, p, k);
    }
  }

  lemma {:induction false} OutTraced(cfg: Cfg, nodes: seq<Node>, states: map<nat, State>, k: nat, x: string)
    requires Built(cfg) && FromEntry(cfg, k) && Traced(cfg, nodes, states) && k < |cfg.blocks|
    requires x in Out(cfg, nodes, states, k).live
    ensures Carried(cfg, nodes, k, x)
  {
    var b := cfg.blocks[k];
    var input := Input(states, b.predecessors);
    if x in input.live {
      var p := InputTraced(states, b.predecessors, x);
      PredecessorFromEntry(cfg, p, k);
      var w :| Walk(cfg, w) && Last(w) == p && x in Run(nodes, Visits(cfg, w)).live;
      assert k in cfg.blocks[p].successors;
      CarryOn(cfg, nodes, w, k, input, x);
    } else {
      ReachesItself(cfg, k);
      var w :| Walk(cfg, w) && Last(w) == k;
      var n := |w| - 1;
      assert w == w[..n] + [k];
      VisitsSnoc(cfg, nodes, w[..n], k);
      ApplyPointwise(nodes, input, Run(nodes, Visits(cfg, w[..n])), b.statements, x);
    }
  }

  lemma {:induction false} CarryOn(cfg: Cfg, nodes: seq<Node>, w: seq<nat>, k: nat, input: State, x: string)
    requires Walk(cfg, w) && Edge(cfg, Last(w), k) && x in Run(nodes, Visits(cfg, w)).live
    requires x in ApplyAll(nodes, input, cfg.blocks[k].statements).live
    ensures Carried(cfg, nodes, k, x)
  {
    WalkExtends(cfg, w, k);
    VisitsSnoc(cfg, nodes, w, k);
    ApplyPointwise(nodes, input, Run(nodes, Visits(cfg, w)), cfg.blocks[k].statements, x);
    assert Walk(cfg, w + [k]) && Last(w + [k]) == k;
  }

  lemma {:induction false} UpdateTraced(cfg: Cfg, nodes: seq<Node>, states: map<nat, State>, k: nat, s: State)
    requires Built(cfg) && Traced(cfg, nodes, states) && k < |cfg.blocks|
    requires s == Out(cfg, nodes, states, k)
    ensures Traced(cfg, nodes, states[k := s])
  {
    forall x | FromEntry(cfg, k) && x in s.live ensures Carried(cfg, nodes, k, x) {
      OutTraced(cfg, nodes, states, k, x);
    }
  }

  lemma {:induction false} SweptTraced(cfg: Cfg, nodes: seq<Node>, states: map<nat, State>, n: nat)
    requires Built(cfg) && Traced(cfg, nodes, states) && n <= |cfg.blocks|
    ensures Traced(cfg, nodes, SweptTo(cfg, nodes, states, n))
  {
    if n > 0 {
      SweptTraced(cfg, nodes, states, n - 1);
      var s := SweptTo(cfg, nodes, states, n - 1);
      UpdateTraced(cfg, nodes, s, n - 1, Out(cfg, nodes, s, n - 1));
    }
  }

  /** After any number of sweeps, what a block without stray ancestors claims to be allocated
      some walk allocates. */
  lemma {:induction false} SweepsTraced(cfg: Cfg, nodes: seq<Node>, n: nat)
    requires Built(cfg)
    ensures Traced(cfg, nodes, Sweeps(cfg, nodes, n))
  {
    if n > 0 {
      SweepsTraced(cfg, nodes, n - 1);
      SweptTraced(cfg, nodes, Sweeps(cfg, nodes, n - 1), |cfg.blocks|);
    }
  }

  /** What the exit states claim to be allocated some walk allocates. */
  ghost predicate LeaksTrue(cfg: Cfg, nodes: seq<Node>, states: map<nat, State>) {
    forall e, x :: e in cfg.exits && e in states && x in states[e].live ==> Carried(cfg, nodes, e, x)
  }

  lemma {:induction false} SamePaths(a: Cfg, b: Cfg)
    requires SameShape(a, b)
    ensures forall p :: (Path(a, p) <==> Path(b, p)) && (Walk(a, p) <==> Walk(b, p))
    ensures forall k :: (Arrives(a, k) <==> Arrives(b, k)) && (FromEntry(a, k) <==> FromEntry(b, k))
    ensures NoStrayExit(a) <==> NoStrayExit(b)
  {
    assert forall u, v, p :: Connects(a, p, u, v) <==> Connects(b, p, u, v);
  }

  /** Block u allocates x, the others do nothing. */
  ghost function AllocatingIn(n: nat, u: nat): (nodes: seq<Node>)
    requires u < n
    ensures forall k: nat :: (Allocates(nodes, k, "x") <==> k == u) && !Frees(nodes, k, "x")
  {
    seq(n, k requires 0 <= k < n => if k == u then Assignment("x", Alloc) else Other)
  }

  /** A handle left allocated has been allocated on the way. */
  lemma {:induction false} CarriedComesFrom(cfg: Cfg, nodes: seq<Node>, w: seq<nat>, u: nat)
    requires Walk(cfg, w) && u < |cfg.blocks| && nodes == AllocatingIn(|cfg.blocks|, u)
    requires forall k {:trigger cfg.blocks[k]} :: 0 <= k < |cfg.blocks| ==> cfg.blocks[k].statements == [k]
    requires "x" in Run(nodes, Visits(cfg, w)).live
    ensures Arrives(cfg, u)
  {
    var v := Visits(cfg, w);
    RunAllocated(nodes, v, "x");
    var i :| 0 <= i < |v| && Allocates(nodes, v[i], "x");
    var k := VisitedInSomeBlock(cfg, w, v[i]);
    assert cfg.blocks[w[k]].statements == [w[k]];
    WalkPrefix(cfg, w, k + 1);
    assert Last(w[..k + 1]) == u;
  }

  lemma {:induction false} StrayLeak(cfg: Cfg, nodes: seq<Node>, p: seq<nat>, u: nat)
    requires Built(cfg) && Path(cfg, p) && p[0] == u && Last(p) in cfg.exits && !Arrives(cfg, u)
    requires nodes == AllocatingIn(|cfg.blocks|, u)
    requires forall k {:trigger cfg.blocks[k]} :: 0 <= k < |cfg.blocks| ==> cfg.blocks[k].statements == [k]
    ensures !LeaksTrue(cfg, nodes, Sweeps(cfg, nodes, |p|))
  {
    assert cfg.blocks[u].statements == [u];
    SingleAllocation(nodes, u);
    forall i | 1 <= i < |p| ensures NoFree(nodes, cfg.blocks[p[i]].statements, "x") {
    }
    LeakPathLeaks(cfg, nodes, p, "x");
    SweepsCoverMay(cfg, nodes, |p|);
    assert MayAt(cfg, nodes, Sweeps(cfg, nodes, |p|), p);
    if w :| Walk(cfg, w) && Last(w) == Last(p) && "x" in Run(nodes, Visits(cfg, w)).live {
      CarriedComesFrom(cfg, nodes, w, u);
    }
    assert !Carried(cfg, nodes, Last(p), "x");
  }

  lemma {:induction false} SingleAllocation(nodes: seq<Node>, u: nat)
    requires Allocates(nodes, u, "x")
    ensures "x" in Run(nodes, [u]).live
  {
    RunAllocated(nodes, [u], "x");
    assert Allocates(nodes, [u][0], "x");
  }

  lemma {:induction false} StrayShape(cfg: Cfg) returns (b: Cfg, nodes: seq<Node>, n: nat)
    requires Built(cfg) && !NoStrayExit(cfg)
    ensures SameShape(cfg, b) && !LeaksTrue(b, nodes, Sweeps(b, nodes, n))
  {
    var e :| e in cfg.exits && !FromEntry(cfg, e);
    var u: nat :| Reaches(cfg, u, e) && !Arrives(cfg, u);
    var p :| Connects(cfg, p, u, e);
    b, nodes, n := OneEach(cfg), AllocatingIn(|cfg.blocks|, u), |p|;
    ShapeIsBuilt(cfg, b);
    SamePaths(cfg, b);
    StrayLeak(b, nodes, p, u);
  }

  /** Reported leaks are real, whatever the blocks contain and however often is swept, exactly
      for the graphs in which no unreachable block leads to an exit. */
  lemma {:induction false} StrayExitsDecideLeaks(cfg: Cfg)
    requires Built(cfg)
    ensures NoStrayExit(cfg) <==>
              forall b, nodes, n: nat :: SameShape(cfg, b) ==> LeaksTrue(b, nodes, Sweeps(b, nodes, n))
  {
    if NoStrayExit(cfg) {
      forall b, nodes, n: nat | SameShape(cfg, b) ensures LeaksTrue(b, nodes, Sweeps(b, nodes, n)) {
        ShapeIsBuilt(cfg, b);
        SamePaths(cfg, b);
        SweepsTraced(b, nodes, n);
      }
    } else {
      var b, nodes, n := StrayShape(cfg);
    }
  }

  // ----- no invented misses ----------------------------------------------------------------------------

  /** Block 0 is the entry, and every other block has an earlier predecessor. */
  predicate Forward(cfg: Cfg) {
    && cfg.entry == 0 && 0 < |cfg.blocks|
    && forall k :: 0 < k < |cfg.blocks| ==> EarlierPredecessor(cfg.blocks[k].predecessors, k)
  }

  predicate EarlierPredecessor(preds: seq<nat>, k: nat) { exists i :: 0 <= i < |preds| && preds[i] < k }

  /** Every block from which k can be reached without passing block 0 has an earlier predecessor. */
  ghost predicate Rooted(cfg: Cfg, k: nat) {
    forall p {:trigger Path(cfg, p)} :: Path(cfg, p) && Last(p) == k && 0 !in p ==>
      EarlierPredecessor(cfg.blocks[p[0]].predecessors, p[0])
  }

  ghost predicate RootedExits(cfg: Cfg) { cfg.entry == 0 && forall e :: e in cfg.exits ==> Rooted(cfg, e) }

  lemma {:induction false} RootedPredecessor(cfg: Cfg, q: nat, k: nat)
    requires Rooted(cfg, k) && k != 0 && q < |cfg.blocks| && k < |cfg.blocks| && k in cfg.blocks[q].successors
    ensures Rooted(cfg, q)
  {
    forall p | Path(cfg, p) && Last(p) == q && 0 !in p
      ensures EarlierPredecessor(cfg.blocks[p[0]].predecessors, p[0])
    {
      assert Path(cfg, p + [k]) && Last(p + [k]) == k;
    }
  }

  lemma {:induction false} RootedItself(cfg: Cfg, k: nat)
    requires Rooted(cfg, k) && 0 < k < |cfg.blocks|
    ensures EarlierPredecessor(cfg.blocks[k].predecessors, k)
  {
    assert Path(cfg, [k]) && Last([k]) == k && [k][0] == k;
  }

  lemma {:induction false} ForwardIsRooted(cfg: Cfg)
    requires Forward(cfg)
    ensures forall k :: Rooted(cfg, k)
  {
    forall p | Path(cfg, p) && 0 !in p ensures EarlierPredecessor(cfg.blocks[p[0]].predecessors, p[0]) {
      assert p[0] in p;
    }
  }

  /** Some walk arrives at the end of block k without writing o. */
  ghost predicate Missable(cfg: Cfg, nodes: seq<Node>, k: nat, o: string) {
    exists w :: Walk(cfg, w) && Last(w) == k && o !in Run(nodes, Visits(cfg, w)).written
  }

  /** The first i blocks are known, no others yet, and what the states of the rooted ones miss a
      walk misses. */
  ghost predicate MissesTraced(cfg: Cfg, nodes: seq<Node>, states: map<nat, State>, i: nat) {
    && (forall k :: 0 <= k < i && k < |cfg.blocks| ==> k in states)
    && (i > 0 ==> forall k :: k in states ==> k < i)
    && forall k, o :: k in states && k < i && Rooted(cfg, k) && o !in states[k].written ==>
         Missable(cfg, nodes, k, o)
  }

  lemma {:induction false} MissHasSource(states: map<nat, State>, preds: seq<nat>, o: string, p: nat) returns (q: nat)
    requires p in preds && p in states && o !in Input(states, preds).written
    ensures q in preds && q in states && o !in states[q].written
    decreases |preds|
  {
    var n := |preds| - 1;
    if preds[n] in states && o !in states[preds[n]].written {
      q := preds[n];
    } else {
      if p in preds[..n] {
        InputBounds(states, preds[..n], p);
        q := MissHasSource(states, preds[..n], o, p);
      } else if Known(states, preds[..n]).Some? {
        var r := KnownFrom(states, preds[..n]);
        q := MissHasSource(states, preds[..n], o, r);
      }
    }
  }

  lemma {:induction false} KnownFrom(states: map<nat, State>, preds: seq<nat>) returns (p: nat)
    requires Known(states, preds).Some?
    ensures p in preds && p in states
    decreases |preds|
  {
    var n := |preds| - 1;
    if preds[n] in states {
      p := preds[n];
    } else {
      p := KnownFrom(states, preds[..n]);
    }
  }

  lemma {:induction false} EntryMissed(cfg: Cfg, nodes: seq<Node>, states: map<nat, State>, o: string)
    requires Built(cfg) && cfg.entry == 0 && o !in Out(cfg, nodes, states, 0).written
    ensures Missable(cfg, nodes, 0, o)
  {
    OneBlockWalk(cfg, nodes);
    assert Last([cfg.entry]) == 0;
    ApplyAdds(nodes, Input(states, cfg.blocks[0].predecessors), cfg.blocks[0].statements);
  }

  lemma {:induction false} OutMissed(cfg: Cfg, nodes: seq<Node>, states: map<nat, State>, i: nat, k: nat, o: string)
    requires Built(cfg) && cfg.entry == 0 && MissesTraced(cfg, nodes, states, i) && k <= i && k < |cfg.blocks|
    requires Rooted(cfg, k) && o !in Out(cfg, nodes, states, k).written
    ensures Missable(cfg, nodes, k, o)
  {
    var b := cfg.blocks[k];
    if k == 0 {
      EntryMissed(cfg, nodes, states, o);
    } else {
      ApplyAdds(nodes, Input(states, b.predecessors), b.statements);
      RootedItself(cfg, k);
      var j :| 0 <= j < |b.predecessors| && b.predecessors[j] < k;
      var q := MissHasSource(states, b.predecessors, o, b.predecessors[j]);
      assert k in cfg.blocks[q].successors;
      RootedPredecessor(cfg, q, k);
      assert Missable(cfg, nodes, q, o);
      var w :| Walk(cfg, w) && Last(w) == q && o !in Run(nodes, Visits(cfg, w)).written;
      MissGoesOn(cfg, nodes, w, k, o);
    }
  }

  lemma {:induction false} MissGoesOn(cfg: Cfg, nodes: seq<Node>, w: seq<nat>, k: nat, o: string)
    requires Walk(cfg, w) && Edge(cfg, Last(w), k) && o !in Run(nodes, Visits(cfg, w)).written
    requires o !in Run(nodes, cfg.blocks[k].statements).written
    ensures Missable(cfg, nodes, k, o)
  {
    WalkExtends(cfg, w, k);
    VisitsSnoc(cfg, nodes, w, k);
    ApplyAdds(nodes, Run(nodes, Visits(cfg, w)), cfg.blocks[k].statements);
    assert Walk(cfg, w + [k]) && Last(w + [k]) == k;
  }

  lemma {:induction false} UpdateTracesMisses(cfg: Cfg, nodes: seq<Node>, states: map<nat, State>, i: nat, k: nat,
                                              j: nat)
    requires Built(cfg) && cfg.entry == 0 && MissesTraced(cfg, nodes, states, i) && k <= i <= |cfg.blocks|
             && k < |cfg.blocks|
    requires j == (if k == i then i + 1 else i) && (i == 0 ==> states == map[0 := Nothing])
    ensures MissesTraced(cfg, nodes, states[k := Out(cfg, nodes, states, k)], j)
  {
    forall o | Rooted(cfg, k) && o !in Out(cfg, nodes, states, k).written ensures Missable(cfg, nodes, k, o) {
      OutMissed(cfg, nodes, states, i, k, o);
    }
  }

  lemma {:induction false} FirstSweepTracesMisses(cfg: Cfg, nodes: seq<Node>, i: nat)
    requires Built(cfg) && cfg.entry == 0 && i <= |cfg.blocks|
    ensures MissesTraced(cfg, nodes, SweptTo(cfg, nodes, map[0 := Nothing], i), i)
    decreases i
  {
    if i > 0 {
      FirstSweepTracesMisses(cfg, nodes, i - 1);
      UpdateTracesMisses(cfg, nodes, SweptTo(cfg, nodes, map[0 := Nothing], i - 1), i - 1, i - 1, i);
    }
  }

  lemma {:induction false} LaterSweepTracesMisses(cfg: Cfg, nodes: seq<Node>, states: map<nat, State>, i: nat)
    requires Built(cfg) && cfg.entry == 0 && i <= |cfg.blocks| && MissesTraced(cfg, nodes, states, |cfg.blocks|)
    ensures MissesTraced(cfg, nodes, SweptTo(cfg, nodes, states, i), |cfg.blocks|)
    decreases i
  {
    if i > 0 {
      LaterSweepTracesMisses(cfg, nodes, states, i - 1);
      UpdateTracesMisses(cfg, nodes, SweptTo(cfg, nodes, states, i - 1), |cfg.blocks|, i - 1, |cfg.blocks|);
    }
  }

  /** After any number of sweeps, what the state of a rooted block misses some walk misses. */
  lemma {:induction false} SweepsTraceMisses(cfg: Cfg, nodes: seq<Node>, n: nat)
    requires Built(cfg) && cfg.entry == 0 && n > 0
    ensures MissesTraced(cfg, nodes, Sweeps(cfg, nodes, n), |cfg.blocks|)
    decreases n
  {
    if n == 1 {
      assert Sweeps(cfg, nodes, 0) == map[0 := Nothing];
      FirstSweepTracesMisses(cfg, nodes, |cfg.blocks|);
    } else {
      SweepsTraceMisses(cfg, nodes, n - 1);
      LaterSweepTracesMisses(cfg, nodes, Sweeps(cfg, nodes, n - 1), |cfg.blocks|);
    }
  }

  // ----- exactly which graphs ----------------------------------------------------------------------

  /** What a state misses some walk misses. */
  ghost predicate StatesTrue(cfg: Cfg, nodes: seq<Node>, states: map<nat, State>) {
    forall k, o :: k in states && o !in states[k].written ==> Missable(cfg, nodes, k, o)
  }

  /** What an exit state misses some walk misses. */
  ghost predicate MissesTrue(cfg: Cfg, nodes: seq<Node>, states: map<nat, State>) {
    forall e, o :: e in cfg.exits && e in states && o !in states[e].written ==> Missable(cfg, nodes, e, o)
  }

  lemma {:induction false} UnknownInput(states: map<nat, State>, preds: seq<nat>)
    requires forall p :: p in preds ==> p !in states
    ensures Input(states, preds) == Nothing
  {
    if Known(states, preds).Some? {
      var p := KnownFrom(states, preds);
    }
  }

  lemma {:induction false} EntryIsWritten(cfg: Cfg, nodes: seq<Node>, w: seq<nat>)
    requires Walk(cfg, w) && cfg.entry == 0 && cfg.blocks[0].statements == [0] && Stores(nodes, 0, "o")
    ensures "o" in Run(nodes, Visits(cfg, w)).written
  {
    assert cfg.blocks[0].statements[0] == 0;
    VisitsOfBlock(cfg, w, 0, 0);
    var v := Visits(cfg, w);
    var i :| 0 <= i < |v| && v[i] == 0;
    assert Stores(nodes, v[i], "o");
    RunWritten(nodes, v, "o");
  }

  /** Only the entry stores o. */
  ghost predicate EntryStores(cfg: Cfg, nodes: seq<Node>) {
    && Built(cfg) && cfg.entry == 0
    && forall k {:trigger cfg.blocks[k]} :: 0 <= k < |cfg.blocks| ==>
         cfg.blocks[k].statements == [k] && (Stores(nodes, k, "o") <==> k == 0)
  }

  ghost predicate MissedAt(states: map<nat, State>, k: nat) { k in states && "o" !in states[k].written }

  lemma {:induction false} NothingIsMissable(cfg: Cfg, nodes: seq<Node>, k: nat)
    requires EntryStores(cfg, nodes)
    ensures !Missable(cfg, nodes, k, "o")
  {
    if w :| Walk(cfg, w) && Last(w) == k && "o" !in Run(nodes, Visits(cfg, w)).written {
      EntryIsWritten(cfg, nodes, w);
    }
  }

  /** In the first sweep block k reads nothing, although every walk has written o. */
  lemma {:induction false} FirstSweepMisses(cfg: Cfg, nodes: seq<Node>, k: nat)
    requires EntryStores(cfg, nodes) && 0 < k < |cfg.blocks| && !EarlierPredecessor(cfg.blocks[k].predecessors, k)
    ensures MissedAt(Sweeps(cfg, nodes, 1), k)
  {
    var before, preds := Sweeps(cfg, nodes, 0), cfg.blocks[k].predecessors;
    assert before == map[0 := Nothing];
    var mid := SweptTo(cfg, nodes, before, k);
    SweptAt(cfg, nodes, before, Sweeps(cfg, nodes, 1), k, mid);
    forall p | p in preds ensures p !in mid {
      var i :| 0 <= i < |preds| && preds[i] == p;
      assert p >= k;
    }
    UnknownInput(mid, preds);
    SingleStatement(nodes, k, "o");
  }

  /** A block that reads a state without o, in the same sweep or in the next, misses o. */
  lemma {:induction false} MissSpreads(cfg: Cfg, nodes: seq<Node>, n: nat, q: nat, k: nat) returns (m: nat)
    requires EntryStores(cfg, nodes) && n > 0 && MissedAt(Sweeps(cfg, nodes, n), q)
    requires q < |cfg.blocks| && 0 < k < |cfg.blocks| && k in cfg.blocks[q].successors
    ensures m > 0 && MissedAt(Sweeps(cfg, nodes, m), k)
  {
    m := if q < k then n else n + 1;
    var before := Sweeps(cfg, nodes, m - 1);
    var mid := SweptTo(cfg, nodes, before, k);
    SweptAt(cfg, nodes, before, Sweeps(cfg, nodes, m), k, mid);
    var preds := cfg.blocks[k].predecessors;
    assert q in preds && MissedAt(mid, q);
    InputBounds(mid, preds, q);
    SingleStatement(nodes, k, "o");
    ApplyAdds(nodes, Input(mid, preds), [k]);
    assert cfg.blocks[k].statements == [k];
  }

  /** So it reaches the end of every path that does not pass the entry. */
  lemma {:induction false} MissArrives(cfg: Cfg, nodes: seq<Node>, p: seq<nat>) returns (m: nat)
    requires EntryStores(cfg, nodes) && Path(cfg, p) && 0 !in p
    requires !EarlierPredecessor(cfg.blocks[p[0]].predecessors, p[0])
    ensures m > 0 && MissedAt(Sweeps(cfg, nodes, m), Last(p))
    decreases |p|
  {
    var n := |p| - 1;
    if n == 0 {
      assert p[0] in p;
      FirstSweepMisses(cfg, nodes, p[0]);
      m := 1;
    } else {
      assert Path(cfg, p[..n]) && p[n] in cfg.blocks[p[n - 1]].successors && p[n] in p;
      m := MissArrives(cfg, nodes, p[..n]);
      m := MissSpreads(cfg, nodes, m, p[n - 1], p[n]);
    }
  }

  lemma {:induction false} EntryStoresIn(cfg: Cfg)
    requires Built(cfg) && cfg.entry == 0
    ensures EntryStores(OneEach(cfg), StoringIn(|cfg.blocks|, [0]))
  {
    ShapeIsBuilt(cfg, OneEach(cfg));
  }

  lemma {:induction false} ShapeIsForward(a: Cfg, b: Cfg)
    requires SameShape(a, b) && Forward(a)
    ensures Forward(b)
  {
    forall k | 0 < k < |b.blocks| ensures EarlierPredecessor(b.blocks[k].predecessors, k) {
      assert EarlierPredecessor(a.blocks[k].predecessors, k);
    }
  }

  lemma {:induction false} ShapeIsRooted(a: Cfg, b: Cfg)
    requires SameShape(a, b) && RootedExits(a)
    ensures RootedExits(b)
  {
    SamePaths(a, b);
    forall e, p | e in b.exits && Path(b, p) && Last(p) == e && 0 !in p
      ensures EarlierPredecessor(b.blocks[p[0]].predecessors, p[0])
    {
      assert Path(a, p) && Rooted(a, e);
    }
  }

  lemma {:induction false} UnrootedShape(cfg: Cfg) returns (b: Cfg, nodes: seq<Node>, n: nat)
    requires Built(cfg) && cfg.entry == 0 && !RootedExits(cfg)
    ensures SameShape(cfg, b) && n > 0 && !MissesTrue(b, nodes, Sweeps(b, nodes, n))
  {
    var e :| e in cfg.exits && !Rooted(cfg, e);
    var p :| Path(cfg, p) && Last(p) == e && 0 !in p && !EarlierPredecessor(cfg.blocks[p[0]].predecessors, p[0]);
    b, nodes := OneEach(cfg), StoringIn(|cfg.blocks|, [0]);
    EntryStoresIn(cfg);
    SamePaths(cfg, b);
    n := MissArrives(b, nodes, p);
    NothingIsMissable(b, nodes, e);
  }

  /** Reported misses are real, whatever the blocks contain and however often is swept, exactly
      for the graphs in which every block that leads to an exit other than through the entry has
      an earlier predecessor. */
  lemma {:induction false} RootedExitsDecideMisses(cfg: Cfg)
    requires Built(cfg) && cfg.entry == 0
    ensures RootedExits(cfg) <==>
              forall b, nodes, n: nat :: SameShape(cfg, b) && n > 0 ==> MissesTrue(b, nodes, Sweeps(b, nodes, n))
  {
    if RootedExits(cfg) {
      forall b, nodes, n: nat | SameShape(cfg, b) && n > 0 ensures MissesTrue(b, nodes, Sweeps(b, nodes, n)) {
        ShapeIsBuilt(cfg, b);
        ShapeIsRooted(cfg, b);
        SweepsTraceMisses(b, nodes, n);
      }
    } else {
      var b, nodes, n := UnrootedShape(cfg);
    }
  }

  /** All states are true in that sense, not just those of exits, exactly for the graphs in which
      every block but the entry has an earlier predecessor. */
  lemma {:induction false} ForwardDecidesMisses(cfg: Cfg)
    requires Built(cfg) && cfg.entry == 0
    ensures Forward(cfg) <==>
              forall b, nodes, n: nat :: SameShape(cfg, b) && n > 0 ==> StatesTrue(b, nodes, Sweeps(b, nodes, n))
  {
    if Forward(cfg) {
      forall b, nodes, n: nat | SameShape(cfg, b) && n > 0 ensures StatesTrue(b, nodes, Sweeps(b, nodes, n)) {
        ShapeIsBuilt(cfg, b);
        ShapeIsForward(cfg, b);
        ForwardIsRooted(b);
        SweepsTraceMisses(b, nodes, n);
      }
    } else {
      var k :| 0 < k < |cfg.blocks| && !EarlierPredecessor(cfg.blocks[k].predecessors, k);
      var b, nodes := OneEach(cfg), StoringIn(|cfg.blocks|, [0]);
      EntryStoresIn(cfg);
      FirstSweepMisses(b, nodes, k);
      NothingIsMissable(b, nodes, k);
      assert !StatesTrue(b, nodes, Sweeps(b, nodes, 1));
    }
  }
}
