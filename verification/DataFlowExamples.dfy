/** Four behaviors on which the dataflow pass, compiler/src/cfg.rs:455-538, goes wrong: it
    claims a write that need not happen, never converges (for two reasons), and reports as
    missing a write that always happens. */
module DataFlowExamples {
  import opened Common
  import opened Ast
  import opened CfgBuilder
  import opened CfgMeaning
  import opened CfgPaths
  import opened WritesOutput
  import opened Termination
  import opened DataFlow
  import opened DataFlowSweeps
  import opened DataFlowReports
  import opened DataFlowPass

  // ----- the graph of a concrete list ----------------------------------------------------

  function NameAt(nodes: seq<Node>, lo: nat): Option<string>
    requires lo < |nodes|
  {
    if nodes[lo].Label? then Some(nodes[lo].name) else None
  }

  function LabelsWith(labels: map<string, nat>, name: Option<string>, k: nat): map<string, nat> {
    if name.Some? then labels[name.value := k] else labels
  }

  /** Statements lo to i - 1 begin a block. */
  ghost predicate Straight(nodes: seq<Node>, lo: nat, i: nat) {
    && lo < i <= |nodes|
    && forall j {:trigger nodes[j]} :: lo <= j < i ==>
          (j > lo ==> !nodes[j].Label?) && (j < i - 1 ==> !Transfers(nodes[j]))
  }

  lemma {:induction false} PartScanned(nodes: seq<Node>, s: Scan, lo: nat, i: nat)
    requires Straight(nodes, lo, i) && !Transfers(nodes[i - 1])
    requires ScanFirst(nodes, lo) == s && s.current == NewBlock
    ensures ScanFirst(nodes, i) == Scan(s.blocks, LabelsWith(s.labels, NameAt(nodes, lo), |s.blocks|),
                                        Block(0, Span(lo, i), NameAt(nodes, lo), [], [], Fallthrough))
    decreases i
  {
    if i == lo + 1 {
      assert [] + [lo] == Span(lo, i);
    } else {
      assert !Transfers(nodes[i - 2]) && !nodes[i - 1].Label?;
      PartScanned(nodes, s, lo, i - 1);
      assert Span(lo, i - 1) + [i - 1] == Span(lo, i);
    }
  }

  function WithBlock(s: Scan, nodes: seq<Node>, lo: nat, hi: nat, terminator: Terminator): Scan
    requires lo < hi <= |nodes|
  {
    Scan(s.blocks + [Block(|s.blocks|, Span(lo, hi), NameAt(nodes, lo), [], [], terminator)],
         LabelsWith(s.labels, NameAt(nodes, lo), |s.blocks|), NewBlock)
  }

  /** A straight piece that ends in a jump or a branch becomes one block. */
  lemma {:induction false} BlockScanned(nodes: seq<Node>, s: Scan, lo: nat, hi: nat)
    requires Straight(nodes, lo, hi) && Transfers(nodes[hi - 1])
    requires ScanFirst(nodes, lo) == s && s.current == NewBlock
    ensures ScanFirst(nodes, hi) == WithBlock(s, nodes, lo, hi, Leaves(nodes, hi))
  {
    if hi == lo + 1 {
      assert [] + [lo] == Span(lo, hi);
    } else {
      assert !Transfers(nodes[hi - 2]);
      PartScanned(nodes, s, lo, hi - 1);
      assert Span(lo, hi - 1) + [hi - 1] == Span(lo, hi);
    }
  }

  /** The last piece of the list. */
  lemma {:induction false} LastScanned(nodes: seq<Node>, s: Scan, lo: nat)
    requires Straight(nodes, lo, |nodes|) && !Transfers(nodes[|nodes| - 1])
    requires ScanFirst(nodes, lo) == s && s.current == NewBlock
    ensures ScanAll(nodes) == WithBlock(s, nodes, lo, |nodes|, Return)
  {
    PartScanned(nodes, s, lo, |nodes|);
  }

  /** The successors of each block, all at once. */
  ghost predicate SuccessorsAre(b0: seq<Block>, labels: map<string, nat>, succs: seq<seq<nat>>) {
    |succs| == |b0| && forall k {:trigger succs[k]} :: 0 <= k < |b0| ==> SuccessorIds(b0, labels, k) == succs[k]
  }

  ghost predicate ConnectedBy(b0: seq<Block>, blocks: seq<Block>, succs: seq<seq<nat>>) {
    && |succs| == |b0| == |blocks|
    && (forall k {:trigger blocks[k]} :: 0 <= k < |b0| ==>
          SameBody(b0[k], blocks[k]) && blocks[k].successors == succs[k])
    && forall k, p: nat {:trigger p in blocks[k].predecessors} :: 0 <= k < |b0| ==>
         (p in blocks[k].predecessors <==> p < |b0| && k in succs[p])
  }

  lemma {:induction false} WiredBy(b0: seq<Block>, labels: map<string, nat>, blocks: seq<Block>, succs: seq<seq<nat>>)
    requires SuccessorsAre(b0, labels, succs) && ConnectedBy(b0, blocks, succs)
    ensures Wired(b0, labels, blocks, |blocks|)
  {
    forall k | 0 <= k < |b0|
      ensures SameBody(b0[k], blocks[k]) && blocks[k].successors == SuccessorIds(b0, labels, k)
      ensures forall p: nat :: p in blocks[k].predecessors <==> p < |b0| && k in SuccessorIds(b0, labels, p)
    {
      assert succs[k] == SuccessorIds(b0, labels, k);
      assert forall p: nat :: p < |b0| ==> succs[p] == SuccessorIds(b0, labels, p);
    }
  }

  // ----- what a sweep does, output by output ---------------------------------------------------

  /** Some predecessor is known, and all known ones claim o. */
  ghost predicate AllKnownClaim(states: map<nat, State>, preds: seq<nat>, o: string) {
    && (exists p :: p in preds && p in states)
    && forall p :: p in preds && p in states ==> o in states[p].written
  }

  lemma {:induction false} InputClaims(states: map<nat, State>, preds: seq<nat>, o: string)
    ensures o in Input(states, preds).written <==> AllKnownClaim(states, preds, o)
    ensures Known(states, preds).Some? <==> exists p :: p in preds && p in states
    decreases |preds|
  {
    if preds != [] {
      var n := |preds| - 1;
      InputClaims(states, preds[..n], o);
      assert forall p :: p in preds <==> p in preds[..n] || p == preds[n];
    }
  }

  lemma {:induction false} OutClaims(cfg: Cfg, nodes: seq<Node>, states: map<nat, State>, k: nat, o: string)
    requires k < |cfg.blocks|
    ensures o in Out(cfg, nodes, states, k).written <==>
              Written(nodes, cfg.blocks[k].statements, o) || AllKnownClaim(states, cfg.blocks[k].predecessors, o)
  {
    var b := cfg.blocks[k];
    InputClaims(states, b.predecessors, o);
    ApplyAdds(nodes, Input(states, b.predecessors), b.statements);
    RunWritten(nodes, b.statements, o);
  }

  /** Whether block k claims o after a sweep: it reads the new states of earlier blocks and the
      old ones of the others. */
  ghost predicate ClaimsNext(cfg: Cfg, nodes: seq<Node>, states: map<nat, State>, after: map<nat, State>, k: nat,
                             o: string)
    requires k < |cfg.blocks| && forall p :: 0 <= p < |cfg.blocks| ==> p in after
  {
    var preds := cfg.blocks[k].predecessors;
    Written(nodes, cfg.blocks[k].statements, o)
    || ((exists p :: p in preds && p < |cfg.blocks| && (p < k || p in states))
        && (forall p :: p in preds && p < k && p < |cfg.blocks| ==> o in after[p].written)
        && (forall p :: p in preds && p >= k && p in states ==> o in states[p].written))
  }

  lemma {:induction false} AllInSweep(cfg: Cfg, nodes: seq<Node>, states: map<nat, State>)
    ensures forall p :: 0 <= p < |cfg.blocks| ==> p in SweptTo(cfg, nodes, states, |cfg.blocks|)
  {
    forall p | 0 <= p < |cfg.blocks| ensures p in SweptTo(cfg, nodes, states, |cfg.blocks|) {
      MidSweep(cfg, nodes, states, |cfg.blocks|, |cfg.blocks|, p);
    }
  }

  lemma {:induction false} ClaimsAgree(cfg: Cfg, nodes: seq<Node>, states: map<nat, State>, after: map<nat, State>,
                                       mid: map<nat, State>, k: nat, o: string)
    requires Built(cfg) && k < |cfg.blocks| && forall p :: 0 <= p < |cfg.blocks| ==> p in after
    requires forall p: nat :: p < k ==> p in mid && p in after && mid[p] == after[p]
    requires forall p: nat :: p >= k ==> (p in mid <==> p in states) && (p in states ==> mid[p] == states[p])
    ensures Written(nodes, cfg.blocks[k].statements, o) || AllKnownClaim(mid, cfg.blocks[k].predecessors, o)
       <==> ClaimsNext(cfg, nodes, states, after, k, o)
  {
    forall p | p in cfg.blocks[k].predecessors ensures p < |cfg.blocks| {
    }
  }

  lemma {:induction false} SweepClaims(cfg: Cfg, nodes: seq<Node>, states: map<nat, State>, after: map<nat, State>,
                                       k: nat, o: string)
    requires Built(cfg) && k < |cfg.blocks| && after == SweptTo(cfg, nodes, states, |cfg.blocks|)
    ensures forall p :: 0 <= p < |cfg.blocks| ==> p in after
    ensures o in after[k].written <==> ClaimsNext(cfg, nodes, states, after, k, o)
  {
    AllInSweep(cfg, nodes, states);
    var mid := SweptTo(cfg, nodes, states, k);
    SweptAt(cfg, nodes, states, after, k, mid);
    OutClaims(cfg, nodes, mid, k, o);
    ClaimsAgree(cfg, nodes, states, after, mid, k, o);
  }

  lemma {:induction false} OnePredecessorClaims(cfg: Cfg, nodes: seq<Node>, states: map<nat, State>,
                                                after: map<nat, State>, k: nat, p: nat, o: string)
    requires Built(cfg) && k < |cfg.blocks| && after == SweptTo(cfg, nodes, states, |cfg.blocks|)
    requires cfg.blocks[k].predecessors == [p] && p < |cfg.blocks|
    ensures forall m :: 0 <= m < |cfg.blocks| ==> m in after
    ensures o in after[k].written <==> (
              Written(nodes, cfg.blocks[k].statements, o)
              || if p < k then o in after[p].written else p in states && o in states[p].written)
  {
    SweepClaims(cfg, nodes, states, after, k, o);
    assert p in cfg.blocks[k].predecessors;
  }

  lemma {:induction false} TwoPredecessorsClaim(cfg: Cfg, nodes: seq<Node>, states: map<nat, State>,
                                                after: map<nat, State>, k: nat, p: nat, q: nat, o: string)
    requires Built(cfg) && k < |cfg.blocks| && after == SweptTo(cfg, nodes, states, |cfg.blocks|)
    requires cfg.blocks[k].predecessors == [p, q] && p < k && q < |cfg.blocks|
    ensures forall m :: 0 <= m < |cfg.blocks| ==> m in after
    ensures o in after[k].written <==> (
              Written(nodes, cfg.blocks[k].statements, o)
              || (o in after[p].written
                  && if q < k then o in after[q].written else q in states ==> o in states[q].written))
  {
    SweepClaims(cfg, nodes, states, after, k, o);
    assert p in cfg.blocks[k].predecessors && q in cfg.blocks[k].predecessors;
  }

  /** What holds at the start and is kept by every sweep holds after n sweeps. */
  lemma {:induction false} SweepsInduction(cfg: Cfg, nodes: seq<Node>, inv: (map<nat, State>, nat) -> bool, n: nat)
    requires inv(Sweeps(cfg, nodes, 0), 0)
    requires forall states: map<nat, State>, m: nat, k: nat
               {:trigger inv(states, m), inv(SweptTo(cfg, nodes, states, |cfg.blocks|), k)} ::
               k == m + 1 && inv(states, m) ==> inv(SweptTo(cfg, nodes, states, |cfg.blocks|), k)
    ensures inv(Sweeps(cfg, nodes, n), n)
    decreases n
  {
    if n > 0 {
      SweepsInduction(cfg, nodes, inv, n - 1);
      assert inv(SweptTo(cfg, nodes, Sweeps(cfg, nodes, n - 1), |cfg.blocks|), n);
    }
  }

  // ----- 1: a way back to the start --------------------------------------------------------------

  /** LABEL a; BRANCH x b c; LABEL b; STORE o; JUMP a; LABEL c */
  const Looping: seq<Node> := [
    Label("a"), Branch(Var("x"), "b", "c"),
    Label("b"), Store("o", Literal, None), Jump("a"),
    Label("c")]

  const LoopingCfg := Cfg(
    [Block(0, [0, 1], Some("a"), [1, 2], [1], BranchTo("b", "c")),
     Block(1, [2, 3, 4], Some("b"), [0], [0], JumpTo("a")),
     Block(2, [5], Some("c"), [], [0], Return)],
    0, [2], map["a" := 0, "b" := 1, "c" := 2])

  const LoopingScan := Scan(
    [Block(0, [0, 1], Some("a"), [], [], BranchTo("b", "c")),
     Block(1, [2, 3, 4], Some("b"), [], [], JumpTo("a")),
     Block(2, [5], Some("c"), [], [], Return)],
    map["a" := 0, "b" := 1, "c" := 2], NewBlock)

  lemma {:induction false} LoopingBlocks()
    ensures ScanAll(Looping) == LoopingScan
  {
    var s0 := Start;
    var s1 := WithBlock(s0, Looping, 0, 2, BranchTo("b", "c"));
    BlockScanned(Looping, s0, 0, 2);
    var s2 := WithBlock(s1, Looping, 2, 5, JumpTo("a"));
    BlockScanned(Looping, s1, 2, 5);
    LastScanned(Looping, s2, 5);
    assert Span(0, 2) == [0, 1] && Span(2, 5) == [2, 3, 4] && Span(5, 6) == [5];
  }

  const LoopingSuccs: seq<seq<nat>> := [[1, 2], [0], []]

  lemma {:induction false} LoopingSuccessors()
    ensures SuccessorsAre(LoopingScan.blocks, LoopingScan.labels, LoopingSuccs)
  {
  }

  lemma {:induction false} LoopingConnected()
    ensures ConnectedBy(LoopingScan.blocks, LoopingCfg.blocks, LoopingSuccs)
  {
  }

  lemma {:induction false} LoopingIsBuilt()
    ensures CfgOf(Looping, LoopingCfg)
  {
    LoopingBlocks();
    LoopingSuccessors();
    LoopingConnected();
    WiredBy(LoopingScan.blocks, LoopingScan.labels, LoopingCfg.blocks, LoopingSuccs);
  }

  /** A walk that leaves at the first branch. */
  lemma {:induction false} ShortWalk()
    ensures ExitWalk(LoopingCfg, [0, 2]) && !Written(Looping, Visits(LoopingCfg, [0, 2]), "o")
  {
    var w: seq<nat> := [0, 2];
    assert w[..1] == [0] && w[..1][..0] == [];
    assert Visits(LoopingCfg, w) == [0, 1, 5];
  }

  /** After the first sweep block 1 claims o, after the second all blocks do. */
  ghost predicate LoopingClaims(states: map<nat, State>, all: bool) {
    && 0 in states && 1 in states && 2 in states && "o" in states[1].written
    && (all ==> "o" in states[0].written && "o" in states[2].written)
  }

  lemma {:induction false} LoopingSweep(states: map<nat, State>, after: map<nat, State>, all: bool)
    requires Built(LoopingCfg) && after == SweptTo(LoopingCfg, Looping, states, 3)
             && (all ==> LoopingClaims(states, false))
    ensures LoopingClaims(after, all)
  {
    OnePredecessorClaims(LoopingCfg, Looping, states, after, 0, 1, "o");
    OnePredecessorClaims(LoopingCfg, Looping, states, after, 1, 0, "o");
    OnePredecessorClaims(LoopingCfg, Looping, states, after, 2, 0, "o");
    assert LoopingCfg.blocks[1].statements[1] == 3 && Stores(Looping, 3, "o");
  }

  ghost predicate LoopingAfter(states: map<nat, State>, m: nat) { m > 0 ==> LoopingClaims(states, m >= 2) }

  lemma {:induction false} LoopingStep(states: map<nat, State>, after: map<nat, State>, m: nat, k: nat)
    requires Built(LoopingCfg) && LoopingAfter(states, m) && k == m + 1
             && after == SweptTo(LoopingCfg, Looping, states, |LoopingCfg.blocks|)
    ensures LoopingAfter(after, k)
  {
    LoopingSweep(states, after, m > 0);
  }

  lemma {:induction false} LoopingSweeps(n: nat)
    requires Built(LoopingCfg)
    ensures LoopingAfter(Sweeps(LoopingCfg, Looping, n), n)
  {
    var inv: (map<nat, State>, nat) -> bool := (s: map<nat, State>, m: nat) => LoopingAfter(s, m);
    forall s: map<nat, State>, m: nat, k: nat | k == m + 1 && inv(s, m)
      ensures inv(SweptTo(LoopingCfg, Looping, s, |LoopingCfg.blocks|), k) {
      LoopingStep(s, SweptTo(LoopingCfg, Looping, s, |LoopingCfg.blocks|), m, k);
    }
    SweepsInduction(LoopingCfg, Looping, inv, n);
  }

  /** In the graph that is built for this behavior the pass records o as written at the exit, after
      any number of sweeps from two on, although an execution that leaves at the first branch
      never writes it. */
  lemma {:induction false} LoopToStartFoolsTheAnalysis(n: nat)
    requires n >= 2
    ensures CfgOf(Looping, LoopingCfg) && !EntryAlone(LoopingCfg)
    ensures 2 in Sweeps(LoopingCfg, Looping, n) && "o" in Sweeps(LoopingCfg, Looping, n)[2].written
    ensures MissedInExecution(Looping, "o")
  {
    LoopingIsBuilt();
    BuiltIsBuilt(Looping, LoopingCfg);
    LoopingSweeps(n);
    ShortWalk();
    assert Misses(LoopingCfg, Looping, "o");
    ExecutionsDecide(Looping, LoopingCfg, "o");
  }

  // ----- 2: sweeps that never converge ---------------------------------------------------------------

  /** STORE o; JUMP p; LABEL q; BRANCH x r done; LABEL p; JUMP q; LABEL r; JUMP p; LABEL done */
  const Restless: seq<Node> := [
    Store("o", Literal, None), Jump("p"),
    Label("q"), Branch(Var("x"), "r", "done"),
    Label("p"), Jump("q"),
    Label("r"), Jump("p"),
    Label("done")]

  const RestlessCfg := Cfg(
    [Block(0, [0, 1], None, [2], [], JumpTo("p")),
     Block(1, [2, 3], Some("q"), [3, 4], [2], BranchTo("r", "done")),
     Block(2, [4, 5], Some("p"), [1], [0, 3], JumpTo("q")),
     Block(3, [6, 7], Some("r"), [2], [1], JumpTo("p")),
     Block(4, [8], Some("done"), [], [1], Return)],
    0, [4], map["q" := 1, "p" := 2, "r" := 3, "done" := 4])

  const RestlessScan := Scan(
    [Block(0, [0, 1], None, [], [], JumpTo("p")),
     Block(1, [2, 3], Some("q"), [], [], BranchTo("r", "done")),
     Block(2, [4, 5], Some("p"), [], [], JumpTo("q")),
     Block(3, [6, 7], Some("r"), [], [], JumpTo("p")),
     Block(4, [8], Some("done"), [], [], Return)],
    map["q" := 1, "p" := 2, "r" := 3, "done" := 4], NewBlock)

  lemma {:induction false} RestlessFirstBlocks()
    ensures ScanFirst(Restless, 4) == Scan(RestlessScan.blocks[..2], map["q" := 1], NewBlock)
  {
    var s1 := WithBlock(Start, Restless, 0, 2, JumpTo("p"));
    BlockScanned(Restless, Start, 0, 2);
    BlockScanned(Restless, s1, 2, 4);
    assert Span(0, 2) == [0, 1] && Span(2, 4) == [2, 3];
  }

  lemma {:induction false} RestlessThirdBlock(s2: Scan, s3: Scan)
    requires s2 == Scan(RestlessScan.blocks[..2], map["q" := 1], NewBlock) && ScanFirst(Restless, 4) == s2
    requires s3 == Scan(RestlessScan.blocks[..3], map["q" := 1, "p" := 2], NewBlock)
    ensures ScanFirst(Restless, 6) == s3
  {
    BlockScanned(Restless, s2, 4, 6);
    assert Span(4, 6) == [4, 5];
  }

  lemma {:induction false} RestlessFourthBlock(s3: Scan, s4: Scan)
    requires s3 == Scan(RestlessScan.blocks[..3], map["q" := 1, "p" := 2], NewBlock) && ScanFirst(Restless, 6) == s3
    requires s4 == Scan(RestlessScan.blocks[..4], map["q" := 1, "p" := 2, "r" := 3], NewBlock)
    ensures ScanFirst(Restless, 8) == s4
  {
    BlockScanned(Restless, s3, 6, 8);
    assert Span(6, 8) == [6, 7];
  }

  lemma {:induction false} RestlessBlocks()
    ensures ScanAll(Restless) == RestlessScan
  {
    RestlessFirstBlocks();
    var s3 := Scan(RestlessScan.blocks[..3], map["q" := 1, "p" := 2], NewBlock);
    RestlessThirdBlock(ScanFirst(Restless, 4), s3);
    var s4 := Scan(RestlessScan.blocks[..4], map["q" := 1, "p" := 2, "r" := 3], NewBlock);
    RestlessFourthBlock(s3, s4);
    LastScanned(Restless, s4, 8);
    assert Span(8, 9) == [8];
  }

  const RestlessSuccs: seq<seq<nat>> := [[2], [3, 4], [1], [2], []]

  lemma {:induction false} RestlessSuccessors()
    ensures SuccessorsAre(RestlessScan.blocks, RestlessScan.labels, RestlessSuccs)
  {
  }

  lemma {:induction false} RestlessConnected()
    ensures ConnectedBy(RestlessScan.blocks, RestlessCfg.blocks, RestlessSuccs)
  {
  }

  lemma {:induction false} RestlessIsBuilt()
    ensures CfgOf(Restless, RestlessCfg)
  {
    RestlessBlocks();
    RestlessSuccessors();
    RestlessConnected();
    WiredBy(RestlessScan.blocks, RestlessScan.labels, RestlessCfg.blocks, RestlessSuccs);
  }

  lemma {:induction false} OtherParity(m: nat, k: nat)
    requires k == m + 1
    ensures k > 0 && (k % 2 == 0 <==> m % 2 != 0)
  {
  }

  /** Blocks 1, 3 and 4 claim o, or block 2 does, by turns. */
  ghost predicate RestlessClaims(states: map<nat, State>, even: bool) {
    && (forall k :: 0 <= k < 5 ==> k in states) && "o" in states[0].written
    && ("o" in states[1].written <==> even) && ("o" in states[2].written <==> !even)
    && ("o" in states[3].written <==> even) && ("o" in states[4].written <==> even)
  }

  lemma {:induction false} RestlessWrites(k: nat)
    requires k < 5
    ensures Written(Restless, RestlessCfg.blocks[k].statements, "o") <==> k == 0
  {
    assert RestlessCfg.blocks[0].statements[0] == 0 && Stores(Restless, 0, "o");
  }

  lemma {:induction false} RestlessTurn(states: map<nat, State>, after: map<nat, State>, even: bool)
    requires Built(RestlessCfg) && after == SweptTo(RestlessCfg, Restless, states, 5)
    requires RestlessClaims(states, even) || (even && 2 !in states && 3 !in states)
    ensures RestlessClaims(after, !even)
  {
    SweepClaims(RestlessCfg, Restless, states, after, 0, "o");
    RestlessWrites(0);
    RestlessWrites(1);
    OnePredecessorClaims(RestlessCfg, Restless, states, after, 1, 2, "o");
    RestlessWrites(2);
    TwoPredecessorsClaim(RestlessCfg, Restless, states, after, 2, 0, 3, "o");
    RestlessWrites(3);
    OnePredecessorClaims(RestlessCfg, Restless, states, after, 3, 1, "o");
    RestlessWrites(4);
    OnePredecessorClaims(RestlessCfg, Restless, states, after, 4, 1, "o");
  }

  ghost predicate RestlessAfter(states: map<nat, State>, m: nat) {
    if m == 0 then 1 !in states && 2 !in states && 3 !in states else RestlessClaims(states, m % 2 == 0)
  }

  lemma {:induction false} RestlessStep(states: map<nat, State>, after: map<nat, State>, m: nat, k: nat)
    requires Built(RestlessCfg) && RestlessAfter(states, m) && k == m + 1
             && after == SweptTo(RestlessCfg, Restless, states, |RestlessCfg.blocks|)
    ensures RestlessAfter(after, k)
  {
    OtherParity(m, k);
    RestlessTurn(states, after, m % 2 == 0);
  }

  lemma {:induction false} RestlessSweeps(n: nat)
    requires Built(RestlessCfg)
    ensures RestlessAfter(Sweeps(RestlessCfg, Restless, n), n)
  {
    var inv: (map<nat, State>, nat) -> bool := (s: map<nat, State>, m: nat) => RestlessAfter(s, m);
    forall s: map<nat, State>, m: nat, k: nat | k == m + 1 && inv(s, m)
      ensures inv(SweptTo(RestlessCfg, Restless, s, |RestlessCfg.blocks|), k) {
      RestlessStep(s, SweptTo(RestlessCfg, Restless, s, |RestlessCfg.blocks|), m, k);
    }
    SweepsInduction(RestlessCfg, Restless, inv, n);
  }

  lemma {:induction false} Arrival(cfg: Cfg, w: seq<nat>, k: nat, m: nat)
    requires Walk(cfg, w) && Last(w) == k && Edge(cfg, k, m)
    ensures Walk(cfg, w + [m]) && Last(w + [m]) == m && Arrives(cfg, m)
  {
    WalkExtends(cfg, w, m);
  }

  lemma {:induction false} RestlessArrives()
    ensures AllArrive(RestlessCfg)
  {
    var w: seq<nat> := [0];
    assert Walk(RestlessCfg, w) && Last(w) == 0;
    assert Arrives(RestlessCfg, 0);
    Arrival(RestlessCfg, w, 0, 2);
    Arrival(RestlessCfg, w + [2], 2, 1);
    Arrival(RestlessCfg, w + [2] + [1], 1, 3);
    Arrival(RestlessCfg, w + [2] + [1], 1, 4);
  }

  /** In the graph that is built for this behavior nothing leads back to the entry and every block
      is reachable, but block 1 has no earlier predecessor, and no sweep ever leaves the states as
      they were. */
  lemma {:induction false} SweepsMayNeverConverge(n: nat)
    ensures CfgOf(Restless, RestlessCfg) && AllArrive(RestlessCfg)
    ensures EntryAlone(RestlessCfg) && !Forward(RestlessCfg)
    ensures !Stable(RestlessCfg, Restless, n) && !Converges(RestlessCfg, Restless)
  {
    RestlessIsBuilt();
    BuiltIsBuilt(Restless, RestlessCfg);
    RestlessArrives();
    assert !EarlierPredecessor(RestlessCfg.blocks[1].predecessors, 1);
    forall m: nat ensures !Stable(RestlessCfg, Restless, m) {
      NeverStable(m, m + 1);
    }
  }

  lemma {:induction false} ClaimsDiffer(states: map<nat, State>, after: map<nat, State>, m: nat, k: nat)
    requires RestlessAfter(states, m) && RestlessAfter(after, k) && k == m + 1
    ensures states != after
  {
    assert m % 2 == 0 <==> k % 2 != 0;
  }

  lemma {:induction false} NeverStable(m: nat, k: nat)
    requires Built(RestlessCfg) && k == m + 1
    ensures Sweeps(RestlessCfg, Restless, m) != Sweeps(RestlessCfg, Restless, k)
  {
    RestlessSweeps(m);
    RestlessSweeps(k);
    ClaimsDiffer(Sweeps(RestlessCfg, Restless, m), Sweeps(RestlessCfg, Restless, k), m, k);
  }

  // ----- 3: sweeps that never converge, through a loop to the start -------------------------------------

  /** LABEL top; BRANCH x a q; LABEL a; STORE o; JUMP m; LABEL m; BRANCH y top done;
      LABEL q; JUMP m; LABEL done */
  const Wavering: seq<Node> := [
    Label("top"), Branch(Var("x"), "a", "q"),
    Label("a"), Store("o", Literal, None), Jump("m"),
    Label("m"), Branch(Var("y"), "top", "done"),
    Label("q"), Jump("m"),
    Label("done")]

  const WaveringCfg := Cfg(
    [Block(0, [0, 1], Some("top"), [1, 3], [2], BranchTo("a", "q")),
     Block(1, [2, 3, 4], Some("a"), [2], [0], JumpTo("m")),
     Block(2, [5, 6], Some("m"), [0, 4], [1, 3], BranchTo("top", "done")),
     Block(3, [7, 8], Some("q"), [2], [0], JumpTo("m")),
     Block(4, [9], Some("done"), [], [2], Return)],
    0, [4], map["top" := 0, "a" := 1, "m" := 2, "q" := 3, "done" := 4])

  const WaveringScan := Scan(
    [Block(0, [0, 1], Some("top"), [], [], BranchTo("a", "q")),
     Block(1, [2, 3, 4], Some("a"), [], [], JumpTo("m")),
     Block(2, [5, 6], Some("m"), [], [], BranchTo("top", "done")),
     Block(3, [7, 8], Some("q"), [], [], JumpTo("m")),
     Block(4, [9], Some("done"), [], [], Return)],
    map["top" := 0, "a" := 1, "m" := 2, "q" := 3, "done" := 4], NewBlock)

  lemma {:induction false} WaveringFirstBlocks()
    ensures ScanFirst(Wavering, 5) == Scan(WaveringScan.blocks[..2], map["top" := 0, "a" := 1], NewBlock)
  {
    var s1 := WithBlock(Start, Wavering, 0, 2, BranchTo("a", "q"));
    BlockScanned(Wavering, Start, 0, 2);
    BlockScanned(Wavering, s1, 2, 5);
    assert Span(0, 2) == [0, 1] && Span(2, 5) == [2, 3, 4];
  }

  lemma {:induction false} WaveringThirdBlock(s2: Scan, s3: Scan)
    requires s2 == Scan(WaveringScan.blocks[..2], map["top" := 0, "a" := 1], NewBlock) && ScanFirst(Wavering, 5) == s2
    requires s3 == Scan(WaveringScan.blocks[..3], map["top" := 0, "a" := 1, "m" := 2], NewBlock)
    ensures ScanFirst(Wavering, 7) == s3
  {
    BlockScanned(Wavering, s2, 5, 7);
    assert Span(5, 7) == [5, 6];
  }

  lemma {:induction false} WaveringFourthBlock(s3: Scan, s4: Scan)
    requires s3 == Scan(WaveringScan.blocks[..3], map["top" := 0, "a" := 1, "m" := 2], NewBlock)
    requires ScanFirst(Wavering, 7) == s3
    requires s4 == Scan(WaveringScan.blocks[..4], map["top" := 0, "a" := 1, "m" := 2, "q" := 3], NewBlock)
    ensures ScanFirst(Wavering, 9) == s4
  {
    BlockScanned(Wavering, s3, 7, 9);
    assert Span(7, 9) == [7, 8];
  }

  lemma {:induction false} WaveringBlocks()
    ensures ScanAll(Wavering) == WaveringScan
  {
    WaveringFirstBlocks();
    var s3 := Scan(WaveringScan.blocks[..3], map["top" := 0, "a" := 1, "m" := 2], NewBlock);
    WaveringThirdBlock(ScanFirst(Wavering, 5), s3);
    var s4 := Scan(WaveringScan.blocks[..4], map["top" := 0, "a" := 1, "m" := 2, "q" := 3], NewBlock);
    WaveringFourthBlock(s3, s4);
    LastScanned(Wavering, s4, 9);
    assert Span(9, 10) == [9];
  }

  const WaveringSuccs: seq<seq<nat>> := [[1, 3], [2], [0, 4], [2], []]

  lemma {:induction false} WaveringSuccessors()
    ensures SuccessorsAre(WaveringScan.blocks, WaveringScan.labels, WaveringSuccs)
  {
  }

  lemma {:induction false} WaveringConnected()
    ensures ConnectedBy(WaveringScan.blocks, WaveringCfg.blocks, WaveringSuccs)
  {
  }

  lemma {:induction false} WaveringIsBuilt()
    ensures CfgOf(Wavering, WaveringCfg)
  {
    WaveringBlocks();
    WaveringSuccessors();
    WaveringConnected();
    WiredBy(WaveringScan.blocks, WaveringScan.labels, WaveringCfg.blocks, WaveringSuccs);
  }

  /** Blocks 0 and 3 claim o, or blocks 2 and 4 do, by turns. */
  ghost predicate WaveringClaims(states: map<nat, State>, even: bool) {
    && (forall k :: 0 <= k < 5 ==> k in states) && "o" in states[1].written
    && ("o" in states[0].written <==> even) && ("o" in states[2].written <==> !even)
    && ("o" in states[3].written <==> even) && ("o" in states[4].written <==> !even)
  }

  lemma {:induction false} WaveringWrites(k: nat)
    requires k < 5
    ensures Written(Wavering, WaveringCfg.blocks[k].statements, "o") <==> k == 1
  {
    assert WaveringCfg.blocks[1].statements[1] == 3 && Stores(Wavering, 3, "o");
  }

  lemma {:induction false} WaveringTurn(states: map<nat, State>, after: map<nat, State>, even: bool)
    requires Built(WaveringCfg) && after == SweptTo(WaveringCfg, Wavering, states, 5)
    requires WaveringClaims(states, even) || (even && 2 !in states && 3 !in states)
    ensures WaveringClaims(after, !even)
  {
    WaveringWrites(0);
    OnePredecessorClaims(WaveringCfg, Wavering, states, after, 0, 2, "o");
    WaveringWrites(1);
    OnePredecessorClaims(WaveringCfg, Wavering, states, after, 1, 0, "o");
    WaveringWrites(2);
    TwoPredecessorsClaim(WaveringCfg, Wavering, states, after, 2, 1, 3, "o");
    WaveringWrites(3);
    OnePredecessorClaims(WaveringCfg, Wavering, states, after, 3, 0, "o");
    WaveringWrites(4);
    OnePredecessorClaims(WaveringCfg, Wavering, states, after, 4, 2, "o");
  }

  ghost predicate WaveringAfter(states: map<nat, State>, m: nat) {
    if m == 0 then 2 !in states && 3 !in states else WaveringClaims(states, m % 2 == 0)
  }

  lemma {:induction false} WaveringStep(states: map<nat, State>, after: map<nat, State>, m: nat, k: nat)
    requires Built(WaveringCfg) && WaveringAfter(states, m) && k == m + 1
    requires after == SweptTo(WaveringCfg, Wavering, states, |WaveringCfg.blocks|)
    ensures WaveringAfter(after, k)
  {
    OtherParity(m, k);
    WaveringTurn(states, after, m % 2 == 0);
  }

  lemma {:induction false} WaveringSweeps(n: nat)
    requires Built(WaveringCfg)
    ensures WaveringAfter(Sweeps(WaveringCfg, Wavering, n), n)
  {
    var inv: (map<nat, State>, nat) -> bool := (s: map<nat, State>, m: nat) => WaveringAfter(s, m);
    forall s: map<nat, State>, m: nat, k: nat | k == m + 1 && inv(s, m)
      ensures inv(SweptTo(WaveringCfg, Wavering, s, |WaveringCfg.blocks|), k)
    {
      WaveringStep(s, SweptTo(WaveringCfg, Wavering, s, |WaveringCfg.blocks|), m, k);
    }
    SweepsInduction(WaveringCfg, Wavering, inv, n);
  }

  lemma {:induction false} WaveringClaimsDiffer(states: map<nat, State>, after: map<nat, State>, m: nat, k: nat)
    requires WaveringAfter(states, m) && WaveringAfter(after, k) && k == m + 1
    ensures states != after
  {
    assert m % 2 == 0 <==> k % 2 != 0;
  }

  lemma {:induction false} WaveringNeverStable(m: nat, k: nat)
    requires Built(WaveringCfg) && k == m + 1
    ensures Sweeps(WaveringCfg, Wavering, m) != Sweeps(WaveringCfg, Wavering, k)
  {
    WaveringSweeps(m);
    WaveringSweeps(k);
    WaveringClaimsDiffer(Sweeps(WaveringCfg, Wavering, m), Sweeps(WaveringCfg, Wavering, k), m, k);
  }

  lemma {:induction false} WaveringIsForward()
    ensures Forward(WaveringCfg) && !EntryAlone(WaveringCfg)
  {
    forall k | 0 < k < 5 ensures EarlierPredecessor(WaveringCfg.blocks[k].predecessors, k) {
      assert WaveringCfg.blocks[k].predecessors[0] < k;
    }
  }

  /** In the graph that is built for this behavior every block but the first has an earlier
      predecessor, but the entry is not alone, and no sweep ever leaves the states as they were. */
  lemma {:induction false} ForwardMayNeverConverge(n: nat)
    ensures CfgOf(Wavering, WaveringCfg) && Forward(WaveringCfg) && !EntryAlone(WaveringCfg)
    ensures !Stable(WaveringCfg, Wavering, n) && !Converges(WaveringCfg, Wavering)
  {
    WaveringIsBuilt();
    BuiltIsBuilt(Wavering, WaveringCfg);
    WaveringIsForward();
    forall m: nat ensures !Stable(WaveringCfg, Wavering, m) {
      WaveringNeverStable(m, m + 1);
    }
  }

  // ----- 4: a report that is not true ---------------------------------------------------------------------

  /** STORE o; JUMP b; LABEL a; BRANCH x b done; LABEL b; JUMP a; LABEL done */
  const Certain: seq<Node> := [
    Store("o", Literal, None), Jump("b"),
    Label("a"), Branch(Var("x"), "b", "done"),
    Label("b"), Jump("a"),
    Label("done")]

  const CertainCfg := Cfg(
    [Block(0, [0, 1], None, [2], [], JumpTo("b")),
     Block(1, [2, 3], Some("a"), [2, 3], [2], BranchTo("b", "done")),
     Block(2, [4, 5], Some("b"), [1], [0, 1], JumpTo("a")),
     Block(3, [6], Some("done"), [], [1], Return)],
    0, [3], map["a" := 1, "b" := 2, "done" := 3])

  const CertainScan := Scan(
    [Block(0, [0, 1], None, [], [], JumpTo("b")),
     Block(1, [2, 3], Some("a"), [], [], BranchTo("b", "done")),
     Block(2, [4, 5], Some("b"), [], [], JumpTo("a")),
     Block(3, [6], Some("done"), [], [], Return)],
    map["a" := 1, "b" := 2, "done" := 3], NewBlock)

  lemma {:induction false} CertainFirstBlocks()
    ensures ScanFirst(Certain, 4) == Scan(CertainScan.blocks[..2], map["a" := 1], NewBlock)
  {
    var s1 := WithBlock(Start, Certain, 0, 2, JumpTo("b"));
    BlockScanned(Certain, Start, 0, 2);
    BlockScanned(Certain, s1, 2, 4);
    assert Span(0, 2) == [0, 1] && Span(2, 4) == [2, 3];
  }

  lemma {:induction false} CertainBlocks()
    ensures ScanAll(Certain) == CertainScan
  {
    CertainFirstBlocks();
    var s2 := Scan(CertainScan.blocks[..2], map["a" := 1], NewBlock);
    var s3 := WithBlock(s2, Certain, 4, 6, JumpTo("a"));
    BlockScanned(Certain, s2, 4, 6);
    LastScanned(Certain, s3, 6);
    assert Span(4, 6) == [4, 5] && Span(6, 7) == [6];
  }

  const CertainSuccs: seq<seq<nat>> := [[2], [2, 3], [1], []]

  lemma {:induction false} CertainSuccessors()
    ensures SuccessorsAre(CertainScan.blocks, CertainScan.labels, CertainSuccs)
  {
  }

  lemma {:induction false} CertainConnected()
    ensures ConnectedBy(CertainScan.blocks, CertainCfg.blocks, CertainSuccs)
  {
  }

  lemma {:induction false} CertainIsBuilt()
    ensures CfgOf(Certain, CertainCfg)
  {
    CertainBlocks();
    CertainSuccessors();
    CertainConnected();
    WiredBy(CertainScan.blocks, CertainScan.labels, CertainCfg.blocks, CertainSuccs);
  }

  ghost predicate CertainClaims(states: map<nat, State>) {
    && (forall k :: 0 <= k < 4 ==> k in states)
    && "o" !in states[1].written && "o" !in states[2].written && "o" !in states[3].written
  }

  lemma {:induction false} CertainWrites(k: nat)
    requires 0 < k < 4
    ensures !Written(Certain, CertainCfg.blocks[k].statements, "o")
  {
  }

  lemma {:induction false} CertainSweep(states: map<nat, State>, after: map<nat, State>)
    requires Built(CertainCfg) && after == SweptTo(CertainCfg, Certain, states, 4)
    requires CertainClaims(states) || 2 !in states
    ensures CertainClaims(after)
  {
    CertainWrites(1);
    OnePredecessorClaims(CertainCfg, Certain, states, after, 1, 2, "o");
    CertainWrites(2);
    TwoPredecessorsClaim(CertainCfg, Certain, states, after, 2, 0, 1, "o");
    CertainWrites(3);
    OnePredecessorClaims(CertainCfg, Certain, states, after, 3, 1, "o");
  }

  ghost predicate CertainAfter(states: map<nat, State>, m: nat) {
    if m == 0 then 2 !in states else CertainClaims(states)
  }

  lemma {:induction false} CertainStep(states: map<nat, State>, after: map<nat, State>, m: nat, k: nat)
    requires Built(CertainCfg) && CertainAfter(states, m) && k == m + 1
             && after == SweptTo(CertainCfg, Certain, states, |CertainCfg.blocks|)
    ensures CertainAfter(after, k)
  {
    CertainSweep(states, after);
  }

  lemma {:induction false} CertainSweeps(n: nat)
    requires Built(CertainCfg)
    ensures CertainAfter(Sweeps(CertainCfg, Certain, n), n)
  {
    var inv: (map<nat, State>, nat) -> bool := (s: map<nat, State>, m: nat) => CertainAfter(s, m);
    forall s: map<nat, State>, m: nat, k: nat | k == m + 1 && inv(s, m)
      ensures inv(SweptTo(CertainCfg, Certain, s, |CertainCfg.blocks|), k) {
      CertainStep(s, SweptTo(CertainCfg, Certain, s, |CertainCfg.blocks|), m, k);
    }
    SweepsInduction(CertainCfg, Certain, inv, n);
  }

  lemma {:induction false} CertainWalkWrites(w: seq<nat>)
    requires Walk(CertainCfg, w)
    ensures Written(Certain, Visits(CertainCfg, w), "o")
  {
    assert CertainCfg.blocks[0].statements[0] == 0;
    VisitsOfBlock(CertainCfg, w, 0, 0);
    var v := Visits(CertainCfg, w);
    var i :| 0 <= i < |v| && v[i] == 0;
    assert Stores(Certain, v[i], "o");
  }

  lemma {:induction false} CertainIsUnrooted()
    ensures !RootedExits(CertainCfg)
  {
    var p: seq<nat> := [1, 3];
    assert Path(CertainCfg, p) && Last(p) == 3 && 0 !in p && 3 in CertainCfg.exits;
    assert !EarlierPredecessor(CertainCfg.blocks[p[0]].predecessors, p[0]);
  }

  /** In the graph that is built for this behavior every walk writes o in the first block, but
      after any number of sweeps the exit state misses it: the report is false.  Block 1, which
      leads to the exit, has no earlier predecessor. */
  lemma {:induction false} ReportMayBeFalse(n: nat)
    requires n > 0
    ensures CfgOf(Certain, CertainCfg) && EntryAlone(CertainCfg) && !RootedExits(CertainCfg)
    ensures 3 in CertainCfg.exits && 3 in Sweeps(CertainCfg, Certain, n)
    ensures "o" !in Sweeps(CertainCfg, Certain, n)[3].written
    ensures !MissedInExecution(Certain, "o")
  {
    CertainIsBuilt();
    BuiltIsBuilt(Certain, CertainCfg);
    CertainSweeps(n);
    CertainIsUnrooted();
    forall w | ExitWalk(CertainCfg, w) ensures Written(Certain, Visits(CertainCfg, w), "o") {
      CertainWalkWrites(w);
    }
    ExecutionsDecide(Certain, CertainCfg, "o");
  }
}
