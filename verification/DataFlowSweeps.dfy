/** What a number of sweeps of the dataflow pass, compiler/src/cfg.rs:466-515, says about
    walks of at most that many blocks, whether or not the sweeps have converged. */
module DataFlowSweeps {
  import opened Common
  import opened Ast
  import opened CfgBuilder
  import opened CfgMeaning
  import opened CfgPaths
  import opened WritesOutput
  import opened Termination
  import opened DataFlow

  // ----- may-facts ----------------------------------------------------------------------

  /** What may be left behind along p is in the state of its last block. */
  ghost predicate MayAt(cfg: Cfg, nodes: seq<Node>, states: map<nat, State>, p: seq<nat>)
    requires Path(cfg, p)
  {
    Last(p) in states && May(states[Last(p)], Run(nodes, Visits(cfg, p)))
  }

  /** Paths of at most n blocks are covered, and those of n + 1 that end before block i. */
  ghost predicate MayCovered(cfg: Cfg, nodes: seq<Node>, states: map<nat, State>, n: nat, i: nat) {
    forall p {:trigger MayAt(cfg, nodes, states, p)} ::
      Path(cfg, p) && (|p| <= n || (|p| == n + 1 && Last(p) < i)) ==> MayAt(cfg, nodes, states, p)
  }

  lemma {:induction false} UpdateCovers(cfg: Cfg, nodes: seq<Node>, states: map<nat, State>, n: nat, i: nat,
                                        p: seq<nat>)
    requires Built(cfg) && MayCovered(cfg, nodes, states, n, i) && i < |cfg.blocks|
    requires Path(cfg, p) && |p| <= n + 1 && Last(p) == i
    ensures MayAt(cfg, nodes, states[i := Out(cfg, nodes, states, i)], p)
  {
    var m := |p| - 1;
    var q, b := p[..m], cfg.blocks[i];
    var input := Input(states, b.predecessors);
    assert p == q + [i];
    VisitsSnoc(cfg, nodes, q, i);
    if m > 0 {
      PathPrefix(cfg, p);
      assert MayAt(cfg, nodes, states, q);
      InputBounds(states, b.predecessors, Last(q));
    }
    ApplyKeepsMay(nodes, input, Run(nodes, Visits(cfg, q)), b.statements);
  }

  lemma {:induction false} PathPrefix(cfg: Cfg, p: seq<nat>)
    requires Built(cfg) && Path(cfg, p) && |p| > 1
    ensures var q := p[..|p| - 1]; Path(cfg, q) && Last(q) in cfg.blocks[Last(p)].predecessors
  {
    var m := |p| - 1;
    assert p[m] in cfg.blocks[p[m - 1]].successors;
  }

  lemma {:induction false} UpdateKeepsMay(cfg: Cfg, nodes: seq<Node>, states: map<nat, State>, n: nat, i: nat, j: nat)
    requires Built(cfg) && MayCovered(cfg, nodes, states, n, i) && i < |cfg.blocks| && j == i + 1
    ensures MayCovered(cfg, nodes, states[i := Out(cfg, nodes, states, i)], n, j)
  {
    var after := states[i := Out(cfg, nodes, states, i)];
    forall p | Path(cfg, p) && (|p| <= n || (|p| == n + 1 && Last(p) < j)) ensures MayAt(cfg, nodes, after, p) {
      if Last(p) == i {
        UpdateCovers(cfg, nodes, states, n, i, p);
      } else {
        assert MayAt(cfg, nodes, states, p);
      }
    }
  }

  lemma {:induction false} SweepKeepsMay(cfg: Cfg, nodes: seq<Node>, states: map<nat, State>, n: nat, i: nat)
    requires Built(cfg) && MayCovered(cfg, nodes, states, n, 0) && i <= |cfg.blocks|
    ensures MayCovered(cfg, nodes, SweptTo(cfg, nodes, states, i), n, i)
    decreases i
  {
    if i > 0 {
      SweepKeepsMay(cfg, nodes, states, n, i - 1);
      UpdateKeepsMay(cfg, nodes, SweptTo(cfg, nodes, states, i - 1), n, i - 1, i);
    }
  }

  /** After n sweeps every path of at most n blocks is covered. */
  lemma {:induction false} SweepsCoverMay(cfg: Cfg, nodes: seq<Node>, n: nat)
    requires Built(cfg)
    ensures MayCovered(cfg, nodes, Sweeps(cfg, nodes, n), n, 0)
  {
    if n > 0 {
      var before, after := Sweeps(cfg, nodes, n - 1), Sweeps(cfg, nodes, n);
      SweepsCoverMay(cfg, nodes, n - 1);
      SweepKeepsMay(cfg, nodes, before, n - 1, |cfg.blocks|);
      forall p | Path(cfg, p) && |p| <= n ensures MayAt(cfg, nodes, after, p) {
      }
    }
  }

  // ----- must-facts ------------------------------------------------------------------------

  /** Nothing leads back to the entry block, or it leads back to itself (too). */
  predicate EntryAlone(cfg: Cfg) {
    cfg.entry < |cfg.blocks| &&
    var preds := cfg.blocks[cfg.entry].predecessors;
    preds == [] || cfg.entry in preds
  }

  /** What must have happened according to the state of the last block has happened on w. */
  ghost predicate MustAt(cfg: Cfg, nodes: seq<Node>, states: map<nat, State>, w: seq<nat>)
    requires Walk(cfg, w)
  {
    Last(w) in states && Must(states[Last(w)], Run(nodes, Visits(cfg, w)))
  }

  ghost predicate MustCovered(cfg: Cfg, nodes: seq<Node>, states: map<nat, State>, n: nat, i: nat) {
    forall w {:trigger MustAt(cfg, nodes, states, w)} ::
      Walk(cfg, w) && (|w| <= n || (|w| == n + 1 && Last(w) < i)) ==> MustAt(cfg, nodes, states, w)
  }

  /** The state of the entry block claims no more than the block itself does. */
  ghost predicate EntryModest(cfg: Cfg, nodes: seq<Node>, states: map<nat, State>) {
    && cfg.entry < |cfg.blocks| && cfg.entry in states
    && Must(states[cfg.entry], Run(nodes, cfg.blocks[cfg.entry].statements))
  }

  /** Must-facts only accumulate. */
  lemma {:induction false} ApplyAdds(nodes: seq<Node>, s: State, v: seq<nat>)
    ensures ApplyAll(nodes, s, v).written == s.written + Run(nodes, v).written
    ensures ApplyAll(nodes, s, v).initialized == s.initialized + Run(nodes, v).initialized
  {
    if v != [] {
      ApplyAdds(nodes, s, v[..|v| - 1]);
    }
  }

  lemma {:induction false} EntryStaysModest(cfg: Cfg, nodes: seq<Node>, states: map<nat, State>)
    requires EntryAlone(cfg) && EntryModest(cfg, nodes, states)
    ensures Must(Out(cfg, nodes, states, cfg.entry), Run(nodes, cfg.blocks[cfg.entry].statements))
  {
    var b := cfg.blocks[cfg.entry];
    ApplyAdds(nodes, Input(states, b.predecessors), b.statements);
    if b.predecessors != [] {
      InputBounds(states, b.predecessors, cfg.entry);
    }
  }

  lemma {:induction false} UpdateHolds(cfg: Cfg, nodes: seq<Node>, states: map<nat, State>, n: nat, i: nat, w: seq<nat>)
    requires Built(cfg) && EntryAlone(cfg) && EntryModest(cfg, nodes, states)
    requires MustCovered(cfg, nodes, states, n, i) && i < |cfg.blocks|
    requires Walk(cfg, w) && |w| <= n + 1 && Last(w) == i
    ensures MustAt(cfg, nodes, states[i := Out(cfg, nodes, states, i)], w)
  {
    var m := |w| - 1;
    var q, b := w[..m], cfg.blocks[i];
    assert w == q + [i];
    VisitsSnoc(cfg, nodes, q, i);
    if m == 0 {
      EntryStaysModest(cfg, nodes, states);
    } else {
      WalkPrefix(cfg, w, m);
      LastEdge(cfg, w);
      assert MustAt(cfg, nodes, states, q);
      InputBounds(states, b.predecessors, Last(q));
      ApplyKeepsMust(nodes, Input(states, b.predecessors), Run(nodes, Visits(cfg, q)), b.statements);
    }
  }

  lemma {:induction false} UpdateKeepsMust(cfg: Cfg, nodes: seq<Node>, states: map<nat, State>, n: nat, i: nat, j: nat)
    requires Built(cfg) && EntryAlone(cfg) && EntryModest(cfg, nodes, states)
    requires MustCovered(cfg, nodes, states, n, i) && i < |cfg.blocks| && j == i + 1
    ensures var after := states[i := Out(cfg, nodes, states, i)];
      EntryModest(cfg, nodes, after) && MustCovered(cfg, nodes, after, n, j)
  {
    var after := states[i := Out(cfg, nodes, states, i)];
    EntryStaysModest(cfg, nodes, states);
    forall w | Walk(cfg, w) && (|w| <= n || (|w| == n + 1 && Last(w) < j)) ensures MustAt(cfg, nodes, after, w) {
      if Last(w) == i {
        UpdateHolds(cfg, nodes, states, n, i, w);
      } else {
        assert MustAt(cfg, nodes, states, w);
      }
    }
  }

  lemma {:induction false} SweepKeepsMust(cfg: Cfg, nodes: seq<Node>, states: map<nat, State>, n: nat, i: nat)
    requires Built(cfg) && EntryAlone(cfg) && EntryModest(cfg, nodes, states)
    requires MustCovered(cfg, nodes, states, n, 0) && i <= |cfg.blocks|
    ensures var after := SweptTo(cfg, nodes, states, i);
      EntryModest(cfg, nodes, after) && MustCovered(cfg, nodes, after, n, i)
    decreases i
  {
    if i > 0 {
      SweepKeepsMust(cfg, nodes, states, n, i - 1);
      UpdateKeepsMust(cfg, nodes, SweptTo(cfg, nodes, states, i - 1), n, i - 1, i);
    }
  }

  /** After n sweeps the must-facts are true of every walk of at most n blocks, if the entry is
      alone. */
  lemma {:induction false} SweepsCoverMust(cfg: Cfg, nodes: seq<Node>, n: nat)
    requires Built(cfg) && EntryAlone(cfg)
    ensures EntryModest(cfg, nodes, Sweeps(cfg, nodes, n))
    ensures MustCovered(cfg, nodes, Sweeps(cfg, nodes, n), n, 0)
  {
    if n > 0 {
      var before, after := Sweeps(cfg, nodes, n - 1), Sweeps(cfg, nodes, n);
      SweepsCoverMust(cfg, nodes, n - 1);
      SweepKeepsMust(cfg, nodes, before, n - 1, |cfg.blocks|);
      forall w | Walk(cfg, w) && |w| <= n ensures MustAt(cfg, nodes, after, w) {
      }
    }
  }

  // ----- short witnesses ------------------------------------------------------------------------

  predicate NoFree(nodes: seq<Node>, v: seq<nat>, x: string) { forall i :: 0 <= i < |v| ==> !Frees(nodes, v[i], x) }

  lemma {:induction false} LiveSplits(nodes: seq<Node>, s: State, v: seq<nat>, x: string)
    ensures x in ApplyAll(nodes, s, v).live <==>
              x in Run(nodes, v).live || (x in s.live && NoFree(nodes, v, x))
  {
    if v != [] {
      var n := |v| - 1;
      LiveSplits(nodes, s, v[..n], x);
      assert NoFree(nodes, v, x) <==> NoFree(nodes, v[..n], x) && !Frees(nodes, v[n], x);
    }
  }

  /** x is left allocated by the first block and freed by no later one. */
  ghost predicate LeakPath(cfg: Cfg, nodes: seq<Node>, p: seq<nat>, x: string) {
    && Path(cfg, p) && x in Run(nodes, cfg.blocks[p[0]].statements).live
    && forall i :: 1 <= i < |p| ==> NoFree(nodes, cfg.blocks[p[i]].statements, x)
  }

  lemma {:induction false} LeakPathLeaks(cfg: Cfg, nodes: seq<Node>, p: seq<nat>, x: string)
    requires LeakPath(cfg, nodes, p, x)
    ensures x in Run(nodes, Visits(cfg, p)).live
    decreases |p|
  {
    var n := |p| - 1;
    assert p == p[..n] + [p[n]];
    VisitsSnoc(cfg, nodes, p[..n], p[n]);
    LiveSplits(nodes, Run(nodes, Visits(cfg, p[..n])), cfg.blocks[p[n]].statements, x);
    if n > 0 {
      assert LeakPath(cfg, nodes, p[..n], x);
      LeakPathLeaks(cfg, nodes, p[..n], x);
    } else {
      assert p[..n] == [];
    }
  }

  /** A leak along a path starts in some block of it. */
  lemma {:induction false} LeakStarts(cfg: Cfg, nodes: seq<Node>, p: seq<nat>, x: string) returns (q: seq<nat>)
    requires Path(cfg, p) && x in Run(nodes, Visits(cfg, p)).live
    ensures LeakPath(cfg, nodes, q, x) && Last(q) == Last(p)
    decreases |p|
  {
    var n := |p| - 1;
    var stmts := cfg.blocks[p[n]].statements;
    assert p == p[..n] + [p[n]];
    VisitsSnoc(cfg, nodes, p[..n], p[n]);
    LiveSplits(nodes, Run(nodes, Visits(cfg, p[..n])), stmts, x);
    if x in Run(nodes, stmts).live {
      q := [p[n]];
    } else {
      assert n > 0 && Path(cfg, p[..n]);
      var r := LeakStarts(cfg, nodes, p[..n], x);
      q := r + [p[n]];
      assert p[n] in cfg.blocks[p[n - 1]].successors;
      LeakGoesOn(cfg, nodes, r, p[n], x);
    }
  }

  lemma {:induction false} LeakGoesOn(cfg: Cfg, nodes: seq<Node>, r: seq<nat>, k: nat, x: string)
    requires LeakPath(cfg, nodes, r, x) && k < |cfg.blocks| && k in cfg.blocks[Last(r)].successors
    requires NoFree(nodes, cfg.blocks[k].statements, x)
    ensures LeakPath(cfg, nodes, r + [k], x)
  {
    assert forall i :: 0 <= i < |r| ==> (r + [k])[i] == r[i];
  }

  /** Cutting a cycle out of a leaking path, or starting after it. */
  lemma {:induction false} ShorterLeak(cfg: Cfg, nodes: seq<Node>, p: seq<nat>, i: nat, j: nat, x: string)
    requires LeakPath(cfg, nodes, p, x) && i < j < |p| && p[i] == p[j]
    ensures LeakPath(cfg, nodes, p[..i] + p[j..], x) && Last(p[..i] + p[j..]) == Last(p)
  {
    var c := p[..i] + p[j..];
    assert forall k {:trigger c[k]} :: 0 <= k < |c| ==> c[k] == if k < i then p[k] else p[k - i + j];
    assert c[0] == p[0];
    forall k, m | 0 <= k < |c| && 0 <= m < |c| && m == k + 1 ensures c[m] in cfg.blocks[c[k]].successors {
      if m < i {
        assert c[m] == p[m] && c[k] == p[k];
      } else if m == i {
        assert c[m] == p[j] == p[i] && c[k] == p[k];
      } else {
        var a, b := k - i + j, m - i + j;
        assert c[m] == p[b] && c[k] == p[a];
      }
    }
  }

  lemma {:induction false} ShortLeak(cfg: Cfg, nodes: seq<Node>, p: seq<nat>, x: string) returns (q: seq<nat>)
    requires LeakPath(cfg, nodes, p, x)
    ensures LeakPath(cfg, nodes, q, x) && Last(q) == Last(p) && |q| <= |cfg.blocks|
    decreases |p|
  {
    if Distinct(p) {
      Pigeonhole(p, |cfg.blocks|);
      q := p;
    } else {
      var i, j :| 0 <= i < j < |p| && p[i] == p[j];
      ShorterLeak(cfg, nodes, p, i, j, x);
      q := ShortLeak(cfg, nodes, p[..i] + p[j..], x);
    }
  }

  lemma {:induction false} WholeWalkIsPath(cfg: Cfg, w: seq<nat>)
    requires Walk(cfg, w)
    ensures Path(cfg, w)
  {
    WalkIsPath(cfg, w, |w| - 1);
    assert w[..|w|] == w;
  }

  // ----- inside one sweep --------------------------------------------------------------------------

  lemma {:induction false} MidSweep(cfg: Cfg, nodes: seq<Node>, states: map<nat, State>, i: nat, j: nat, k: nat)
    requires i <= j <= |cfg.blocks|
    ensures k < i ==> k in SweptTo(cfg, nodes, states, i) && k in SweptTo(cfg, nodes, states, j)
                      && SweptTo(cfg, nodes, states, i)[k] == SweptTo(cfg, nodes, states, j)[k]
    ensures k >= j ==> (k in SweptTo(cfg, nodes, states, j) <==> k in states)
                       && (k in states ==> SweptTo(cfg, nodes, states, j)[k] == states[k])
    decreases j
  {
    if i < j {
      MidSweep(cfg, nodes, states, i, j - 1, k);
    } else if j > 0 {
      MidSweep(cfg, nodes, states, i - 1, j - 1, k);
    }
  }

  /** Block k reads the new states of earlier blocks and the old ones of the others. */
  lemma {:induction false} SweptAt(cfg: Cfg, nodes: seq<Node>, states: map<nat, State>, after: map<nat, State>, k: nat,
                                   mid: map<nat, State>)
    requires k < |cfg.blocks| && after == SweptTo(cfg, nodes, states, |cfg.blocks|)
             && mid == SweptTo(cfg, nodes, states, k)
    ensures k in after && after[k] == Out(cfg, nodes, mid, k)
    ensures forall p: nat :: p < k ==> p in mid && p in after && mid[p] == after[p]
    ensures forall p: nat :: p >= k ==> (p in mid <==> p in states) && (p in states ==> mid[p] == states[p])
  {
    MidSweep(cfg, nodes, states, k + 1, |cfg.blocks|, k);
    forall p: nat ensures p < k ==> p in mid && p in after && mid[p] == after[p]
                  ensures p >= k ==> (p in mid <==> p in states) && (p in states ==> mid[p] == states[p]) {
      MidSweep(cfg, nodes, states, k, |cfg.blocks|, p);
      MidSweep(cfg, nodes, states, 0, k, p);
    }
  }

  /** States that a sweep leaves as they were are a fixpoint. */
  lemma {:induction false} UnchangedIsFixpoint(cfg: Cfg, nodes: seq<Node>, states: map<nat, State>)
    requires SweptTo(cfg, nodes, states, |cfg.blocks|) == states
    ensures Fixpoint(cfg, nodes, states)
  {
    forall k | 0 <= k < |cfg.blocks| ensures k in states && states[k] == Out(cfg, nodes, states, k) {
      var mid := SweptTo(cfg, nodes, states, k);
      SweptAt(cfg, nodes, states, states, k, mid);
      assert mid == states;
    }
  }

  // ----- enough sweeps -----------------------------------------------------------------------------

  /** Enough sweeps for every walk: at least one for each block, or as many as it takes to
      converge. */
  ghost predicate Enough(cfg: Cfg, nodes: seq<Node>, n: nat) {
    n >= |cfg.blocks| || Sweeps(cfg, nodes, n + 1) == Sweeps(cfg, nodes, n)
  }

  lemma {:induction false} ConvergedStays(cfg: Cfg, nodes: seq<Node>, n: nat, m: nat)
    requires Sweeps(cfg, nodes, n + 1) == Sweeps(cfg, nodes, n) && n <= m
    ensures Sweeps(cfg, nodes, m) == Sweeps(cfg, nodes, n)
    decreases m
  {
    if n < m {
      ConvergedStays(cfg, nodes, n, m - 1);
    }
  }

  /** Then every leak along a walk is in the state of its last block. */
  lemma {:induction false} EnoughForLeaks(cfg: Cfg, nodes: seq<Node>, n: nat, w: seq<nat>, x: string)
    requires Built(cfg) && Enough(cfg, nodes, n) && Walk(cfg, w) && x in Run(nodes, Visits(cfg, w)).live
    ensures Last(w) in Sweeps(cfg, nodes, n) && x in Sweeps(cfg, nodes, n)[Last(w)].live
  {
    WholeWalkIsPath(cfg, w);
    var p := LeakStarts(cfg, nodes, w, x);
    var q := ShortLeak(cfg, nodes, p, x);
    LeakPathLeaks(cfg, nodes, q, x);
    var m := if n >= |cfg.blocks| then n else |cfg.blocks|;
    if n < m {
      ConvergedStays(cfg, nodes, n, m);
    }
    SweepsCoverMay(cfg, nodes, m);
    assert MayAt(cfg, nodes, Sweeps(cfg, nodes, m), q);
  }

  lemma {:induction false} ShorterMiss(cfg: Cfg, nodes: seq<Node>, w: seq<nat>, o: string) returns (p: seq<nat>)
    requires Walk(cfg, w) && !Written(nodes, Visits(cfg, w), o)
    ensures Walk(cfg, p) && Last(p) == Last(w) && |p| <= |cfg.blocks| && !Written(nodes, Visits(cfg, p), o)
    decreases |w|
  {
    if Distinct(w) {
      Pigeonhole(w, |cfg.blocks|);
      p := w;
    } else {
      var i, j :| 0 <= i < j < |w| && w[i] == w[j];
      CutCycle(cfg, w, i, j);
      FewerVisits(cfg, nodes, w, w[..i] + w[j..], o);
      p := ShorterMiss(cfg, nodes, w[..i] + w[j..], o);
    }
  }

  lemma {:induction false} FewerVisits(cfg: Cfg, nodes: seq<Node>, w: seq<nat>, p: seq<nat>, o: string)
    requires Walk(cfg, w) && Walk(cfg, p) && (forall k :: k in p ==> k in w) && !Written(nodes, Visits(cfg, w), o)
    ensures !Written(nodes, Visits(cfg, p), o)
  {
    var v := Visits(cfg, p);
    if i :| 0 <= i < |v| && Stores(nodes, v[i], o) {
      var k := VisitedInSomeBlock(cfg, p, v[i]);
      assert p[k] in w;
      var m :| 0 <= m < |w| && w[m] == p[k];
      VisitsOfBlock(cfg, w, m, v[i]);
    }
  }

  /** And every output that a walk misses is unwritten in the state of its last block. */
  lemma {:induction false} EnoughForMisses(cfg: Cfg, nodes: seq<Node>, n: nat, w: seq<nat>, o: string)
    requires Built(cfg) && EntryAlone(cfg) && Enough(cfg, nodes, n)
    requires Walk(cfg, w) && !Written(nodes, Visits(cfg, w), o)
    ensures Last(w) in Sweeps(cfg, nodes, n) && o !in Sweeps(cfg, nodes, n)[Last(w)].written
  {
    var p := ShorterMiss(cfg, nodes, w, o);
    var m := if n >= |cfg.blocks| then n else |cfg.blocks|;
    if n < m {
      ConvergedStays(cfg, nodes, n, m);
    }
    SweepsCoverMust(cfg, nodes, m);
    assert MustAt(cfg, nodes, Sweeps(cfg, nodes, m), p);
    RunWritten(nodes, Visits(cfg, p), o);
  }

  // ----- exactly which graphs ---------------------------------------------------------------------------

  /** The same graph with other statements in its blocks. */
  ghost predicate SameShape(a: Cfg, b: Cfg) {
    && |b.blocks| == |a.blocks| && b == a.(blocks := b.blocks)
    && forall k {:trigger b.blocks[k]} :: 0 <= k < |a.blocks| ==>
         b.blocks[k] == a.blocks[k].(statements := b.blocks[k].statements)
  }

  ghost predicate MustHoldsAfter(cfg: Cfg, nodes: seq<Node>, n: nat) {
    forall w :: Walk(cfg, w) && |w| <= n ==> MustAt(cfg, nodes, Sweeps(cfg, nodes, n), w)
  }

  lemma {:induction false} ShapeIsBuilt(a: Cfg, b: Cfg)
    requires Built(a) && SameShape(a, b)
    ensures Built(b) && (EntryAlone(a) <==> EntryAlone(b))
  {
    forall k, m | 0 <= k < |b.blocks| && m in b.blocks[k].successors ensures m < |b.blocks| {
      assert m in a.blocks[k].successors;
    }
    forall k: nat, p: nat | k < |b.blocks|
      ensures p in b.blocks[k].predecessors <==> p < |b.blocks| && k in b.blocks[p].successors
    {
      assert p in a.blocks[k].predecessors <==> p < |a.blocks| && k in a.blocks[p].successors;
    }
  }

  /** The same graph in which block k holds just statement k. */
  ghost function OneEach(cfg: Cfg): (b: Cfg)
    ensures SameShape(cfg, b)
    ensures forall k {:trigger b.blocks[k]} :: 0 <= k < |cfg.blocks| ==> b.blocks[k].statements == [k]
  {
    cfg.(blocks := seq(|cfg.blocks|, k requires 0 <= k < |cfg.blocks| => cfg.blocks[k].(statements := [k])))
  }

  /** The statements of the blocks ks store o, the others do nothing. */
  ghost function StoringIn(n: nat, ks: seq<nat>): (nodes: seq<Node>)
    ensures |nodes| == n
    ensures forall k: nat :: Stores(nodes, k, "o") <==> k < n && k in ks
  {
    seq(n, k requires 0 <= k < n => if k in ks then Store("o", Literal, None) else Other)
  }

  ghost predicate Fools(b: Cfg, nodes: seq<Node>) {
    && Built(b)
    && forall k {:trigger b.blocks[k]} :: 0 <= k < |b.blocks| ==>
         b.blocks[k].statements == [k] && (Stores(nodes, k, "o") <==> k in b.blocks[b.entry].predecessors)
  }

  ghost predicate PredecessorsWrote(b: Cfg, states: map<nat, State>, i: nat)
    requires b.entry < |b.blocks|
  {
    forall p :: p in b.blocks[b.entry].predecessors && p < i ==> p in states && "o" in states[p].written
  }

  lemma {:induction false} SingleStatement(nodes: seq<Node>, k: nat, o: string)
    ensures o in Run(nodes, [k]).written <==> Stores(nodes, k, o)
  {
    RunWritten(nodes, [k], o);
    assert Written(nodes, [k], o) ==> Stores(nodes, k, o);
    assert Stores(nodes, k, o) ==> Stores(nodes, [k][0], o);
  }

  lemma {:induction false} FoolingUpdate(b: Cfg, nodes: seq<Node>, states: map<nat, State>, i: nat, k: nat, j: nat)
    requires Fools(b, nodes) && PredecessorsWrote(b, states, i) && k < |b.blocks| && k <= i
    requires j == if k == i then i + 1 else i
    ensures PredecessorsWrote(b, states[k := Out(b, nodes, states, k)], j)
  {
    assert b.blocks[k].statements == [k];
    SingleStatement(nodes, k, "o");
    ApplyAdds(nodes, Input(states, b.blocks[k].predecessors), [k]);
  }

  lemma {:induction false} FoolingFirstSweep(b: Cfg, nodes: seq<Node>, states: map<nat, State>, i: nat)
    requires Fools(b, nodes) && i <= |b.blocks|
    ensures PredecessorsWrote(b, SweptTo(b, nodes, states, i), i)
    decreases i
  {
    if i > 0 {
      FoolingFirstSweep(b, nodes, states, i - 1);
      FoolingUpdate(b, nodes, SweptTo(b, nodes, states, i - 1), i - 1, i - 1, i);
    }
  }

  lemma {:induction false} FoolingLaterSweep(b: Cfg, nodes: seq<Node>, states: map<nat, State>, i: nat)
    requires Fools(b, nodes) && i <= |b.blocks| && PredecessorsWrote(b, states, |b.blocks|)
    ensures PredecessorsWrote(b, SweptTo(b, nodes, states, i), |b.blocks|)
    decreases i
  {
    if i > 0 {
      FoolingLaterSweep(b, nodes, states, i - 1);
      FoolingUpdate(b, nodes, SweptTo(b, nodes, states, i - 1), |b.blocks|, i - 1, |b.blocks|);
    }
  }

  lemma {:induction false} FoolingSweeps(b: Cfg, nodes: seq<Node>, n: nat)
    requires Fools(b, nodes) && n >= 1
    ensures PredecessorsWrote(b, Sweeps(b, nodes, n), |b.blocks|)
    decreases n
  {
    if n == 1 {
      FoolingFirstSweep(b, nodes, Sweeps(b, nodes, 0), |b.blocks|);
    } else {
      FoolingSweeps(b, nodes, n - 1);
      FoolingLaterSweep(b, nodes, Sweeps(b, nodes, n - 1), |b.blocks|);
    }
  }

  lemma {:induction false} AllClaim(states: map<nat, State>, preds: seq<nat>, o: string)
    requires preds != [] && forall p :: p in preds ==> p in states && o in states[p].written
    ensures Known(states, preds).Some? && o in Known(states, preds).value.written
    decreases |preds|
  {
    var n := |preds| - 1;
    if n > 0 {
      AllClaim(states, preds[..n], o);
    } else {
      assert preds[..n] == [];
    }
  }

  lemma {:induction false} EntryClaims(b: Cfg, nodes: seq<Node>, states: map<nat, State>)
    requires Fools(b, nodes) && PredecessorsWrote(b, states, |b.blocks|) && b.blocks[b.entry].predecessors != []
    ensures "o" in Out(b, nodes, states, b.entry).written
  {
    var preds := b.blocks[b.entry].predecessors;
    forall p | p in preds ensures p < |b.blocks| {
    }
    AllClaim(states, preds, "o");
    ApplyAdds(nodes, Input(states, preds), b.blocks[b.entry].statements);
  }

  /** From the second sweep on the entry state claims o. */
  lemma {:induction false} EntryFooled(b: Cfg, nodes: seq<Node>, states: map<nat, State>, i: nat)
    requires Fools(b, nodes) && b.entry < i <= |b.blocks|
    requires PredecessorsWrote(b, states, |b.blocks|) && b.blocks[b.entry].predecessors != []
    ensures var after := SweptTo(b, nodes, states, i); b.entry in after && "o" in after[b.entry].written
    decreases i
  {
    if i == b.entry + 1 {
      FoolingLaterSweep(b, nodes, states, b.entry);
      EntryClaims(b, nodes, SweptTo(b, nodes, states, b.entry));
    } else {
      EntryFooled(b, nodes, states, i - 1);
    }
  }

  lemma {:induction false} FoolingFools(cfg: Cfg)
    requires Built(cfg)
    ensures Fools(OneEach(cfg), StoringIn(|cfg.blocks|, cfg.blocks[cfg.entry].predecessors))
  {
    ShapeIsBuilt(cfg, OneEach(cfg));
  }

  /** If some block leads back to the entry, but not the entry itself, then the statements can
      be chosen such that its must-facts are false. */
  lemma {:induction false} EntryCanBeFooled(b: Cfg, nodes: seq<Node>, n: nat)
    requires Fools(b, nodes) && !EntryAlone(b) && n >= 2
    ensures !MustHoldsAfter(b, nodes, n)
  {
    FoolingSweeps(b, nodes, n - 1);
    EntryFooled(b, nodes, Sweeps(b, nodes, n - 1), |b.blocks|);
    OneBlockWalk(b, nodes);
    assert b.blocks[b.entry].statements == [b.entry];
    SingleStatement(nodes, b.entry, "o");
    assert !MustAt(b, nodes, Sweeps(b, nodes, n), [b.entry]);
  }

  lemma {:induction false} OneBlockWalk(cfg: Cfg, nodes: seq<Node>)
    requires cfg.entry < |cfg.blocks|
    ensures Walk(cfg, [cfg.entry])
            && Run(nodes, Visits(cfg, [cfg.entry])) == Run(nodes, cfg.blocks[cfg.entry].statements)
  {
    VisitsSnoc(cfg, nodes, [], cfg.entry);
    assert [] + [cfg.entry] == [cfg.entry];
  }

  /** The must-facts are true of every walk, whatever the blocks contain, exactly for the graphs
      whose entry is alone. */
  lemma {:induction false} EntryDecidesMustFacts(cfg: Cfg, n: nat)
    requires Built(cfg) && n >= 2
    ensures EntryAlone(cfg) <==> forall b, nodes :: SameShape(cfg, b) ==> MustHoldsAfter(b, nodes, n)
  {
    if EntryAlone(cfg) {
      forall b, nodes | SameShape(cfg, b) ensures MustHoldsAfter(b, nodes, n) {
        ShapeIsBuilt(cfg, b);
        SweepsCoverMust(b, nodes, n);
      }
    } else {
      ShapeIsBuilt(cfg, OneEach(cfg));
      FoolingFools(cfg);
      EntryCanBeFooled(OneEach(cfg), StoringIn(|cfg.blocks|, cfg.blocks[cfg.entry].predecessors), n);
    }
  }
}
