/** The control-flow graph preserves the meaning of the statement list: the statement
    sequences that executions visit are those that walks through the graph visit. */
module CfgMeaning {
  import opened Common
  import opened Ast
  import opened CfgBuilder

  // ----- executions of a statement list ---------------------------------------------

  /** Statement j may be executed right after statement i; a branch may go either way, and
      a jump to an undefined label goes nowhere. */
  predicate Follows(nodes: seq<Node>, i: nat, j: nat)
    requires i < |nodes|
  {
    match nodes[i]
    case Jump(to) => LastLabel(nodes, |nodes|, to) == Some(j)
    case Branch(_, t, f) => LastLabel(nodes, |nodes|, t) == Some(j) || LastLabel(nodes, |nodes|, f) == Some(j)
    case _ => j == i + 1 && j < |nodes|
  }

  /** Statement j is the last LABEL of that name. */
  ghost predicate LabelledLast(nodes: seq<Node>, name: string, j: nat) {
    j < |nodes| && nodes[j] == Label(name) && forall k :: j < k < |nodes| ==> nodes[k] != Label(name)
  }

  lemma {:induction false} LastLabelExactly(nodes: seq<Node>, n: nat, name: string, j: nat)
    requires n <= |nodes|
    ensures LastLabel(nodes, n, name) == Some(j) <==>
              j < n && nodes[j] == Label(name) && forall k :: j < k < n ==> nodes[k] != Label(name)
  {
    if n > 0 && nodes[n - 1] != Label(name) {
      LastLabelExactly(nodes, n - 1, name, j);
    }
  }

  /** Control flow, spelled out: a jump goes to the last label of its name, a branch to that of either of
      its names, and any other statement to the next one. */
  lemma {:induction false} FollowsExactly(nodes: seq<Node>, i: nat, j: nat)
    requires i < |nodes|
    ensures nodes[i].Jump? ==> (Follows(nodes, i, j) <==> LabelledLast(nodes, nodes[i].to, j))
    ensures nodes[i].Branch? ==>
              (Follows(nodes, i, j) <==>
                 LabelledLast(nodes, nodes[i].onTrue, j) || LabelledLast(nodes, nodes[i].onFalse, j))
    ensures !nodes[i].Jump? && !nodes[i].Branch? ==> (Follows(nodes, i, j) <==> j == i + 1 < |nodes|)
  {
    forall name ensures LastLabel(nodes, |nodes|, name) == Some(j) <==> LabelledLast(nodes, name, j) {
      LastLabelExactly(nodes, |nodes|, name, j);
    }
  }

  /** A finite execution from the first statement on. */
  ghost predicate Execution(nodes: seq<Node>, r: seq<nat>) {
    && (r != [] ==> r[0] == 0)
    && (forall i :: 0 <= i < |r| ==> r[i] < |nodes|)
    && forall i, j :: 0 <= i < |r| && 0 <= j < |r| && j == i + 1 ==> Follows(nodes, r[i], r[j])
  }

  ghost predicate Ends(nodes: seq<Node>, i: nat)
    requires i < |nodes|
  {
    forall j: nat :: !Follows(nodes, i, j)
  }

  /** An execution that has left the behavior. */
  ghost predicate CompleteExecution(nodes: seq<Node>, r: seq<nat>) {
    && Execution(nodes, r)
    && (nodes != [] ==> r != [] && Ends(nodes, r[|r| - 1]))
  }

  // ----- walks through a graph ------------------------------------------------------

  predicate Edge(cfg: Cfg, a: nat, b: nat) {
    && a < |cfg.blocks| && b < |cfg.blocks|
    && !IsExit(cfg.blocks[a]) && b in cfg.blocks[a].successors
  }

  ghost predicate Walk(cfg: Cfg, w: seq<nat>) {
    && w != [] && w[0] == cfg.entry
    && (forall i :: 0 <= i < |w| ==> w[i] < |cfg.blocks|)
    && forall i, j :: 0 <= i < |w| && 0 <= j < |w| && j == i + 1 ==> Edge(cfg, w[i], w[j])
  }

  ghost predicate ExitWalk(cfg: Cfg, w: seq<nat>) {
    Walk(cfg, w) && IsExit(cfg.blocks[w[|w| - 1]])
  }

  /** The statements a walk visits. */
  function Visits(cfg: Cfg, w: seq<nat>): seq<nat>
    requires forall i :: 0 <= i < |w| ==> w[i] < |cfg.blocks|
  {
    if w == [] then [] else Visits(cfg, w[..|w| - 1]) + cfg.blocks[w[|w| - 1]].statements
  }

  // ----- facts about the built graph ------------------------------------------------

  lemma {:induction false} CutAt(nodes: seq<Node>, blocks: seq<Block>, k: nat)
    requires Cut(nodes, blocks) && k < |blocks|
    ensures BlockOk(nodes, blocks[k]) && Hi(blocks[k]) <= End(blocks)
    ensures k == 0 ==> Lo(blocks[k]) == 0
    ensures k + 1 < |blocks| ==> Lo(blocks[k + 1]) == Hi(blocks[k])
    ensures k + 1 == |blocks| ==> Hi(blocks[k]) == End(blocks)
  {
    var n := |blocks| - 1;
    if k < n {
      CutAt(nodes, blocks[..n], k);
    } else if k > 0 {
      CutAt(nodes, blocks[..n], k - 1);
    }
  }

  /** Everything later proofs use of one block of the built graph. */
  ghost predicate BlockFacts(nodes: seq<Node>, cfg: Cfg, k: nat) {
    && k < |cfg.blocks|
    && var b := cfg.blocks[k];
    && BlockOk(nodes, b)
    && (k == 0 ==> Lo(b) == 0)
    && (k + 1 < |cfg.blocks| ==> Lo(cfg.blocks[k + 1]) == Hi(b))
    && (k + 1 == |cfg.blocks| ==> Hi(b) == |nodes|)
    && b.successors == SuccessorIds(cfg.blocks, cfg.labelToBlock, k)
  }

  lemma {:induction false} BuiltBlock(nodes: seq<Node>, cfg: Cfg, k: nat)
    requires CfgOf(nodes, cfg) && nodes != [] && k < |cfg.blocks|
    ensures BlockFacts(nodes, cfg, k)
  {
    ScanAllCuts(nodes);
    WiredBlock(nodes, ScanAll(nodes).blocks, cfg, k, k + 1);
  }

  lemma {:induction false} WiredBlock(nodes: seq<Node>, b0: seq<Block>, cfg: Cfg, k: nat, m: nat)
    requires Cut(nodes, b0) && End(b0) == |nodes| && k < |b0| && m == k + 1
    requires Wired(b0, cfg.labelToBlock, cfg.blocks, |cfg.blocks|)
    ensures BlockFacts(nodes, cfg, k)
  {
    CutAt(nodes, b0, k);
    FactsCarryOver(nodes, b0, cfg, k, m);
  }

  lemma {:induction false} FactsCarryOver(nodes: seq<Node>, b0: seq<Block>, cfg: Cfg, k: nat, m: nat)
    requires k < |b0| && m == k + 1 && BlockOk(nodes, b0[k]) && (k == 0 ==> Lo(b0[k]) == 0)
    requires if m < |b0| then Lo(b0[m]) == Hi(b0[k]) else Hi(b0[k]) == |nodes|
    requires Wired(b0, cfg.labelToBlock, cfg.blocks, |cfg.blocks|)
    ensures BlockFacts(nodes, cfg, k)
  {
    assert SameBody(b0[k], cfg.blocks[k]);
    assert SuccessorIds(b0, cfg.labelToBlock, k) == SuccessorIds(cfg.blocks, cfg.labelToBlock, k);
    if m < |b0| {
      assert SameBody(b0[m], cfg.blocks[m]);
    }
  }

  /** Labels resolve to the block that starts at their last occurrence. */
  lemma {:induction false} BuiltLabel(nodes: seq<Node>, cfg: Cfg, l: string)
    requires CfgOf(nodes, cfg) && nodes != []
    ensures l in cfg.labelToBlock <==> LastLabel(nodes, |nodes|, l).Some?
    ensures l in cfg.labelToBlock ==>
              cfg.labelToBlock[l] < |cfg.blocks|
              && LastLabel(nodes, |nodes|, l) == Some(Lo(cfg.blocks[cfg.labelToBlock[l]]))
  {
    var s := ScanAll(nodes);
    ScanAllCuts(nodes);
    ScanAllLabels(nodes);
    assert l in s.labels <==> LastLabel(nodes, |nodes|, l).Some?;
    if l in s.labels {
      assert s.labels[l] < |s.blocks|;
      assert SameBody(s.blocks[s.labels[l]], cfg.blocks[s.labels[l]]);
    }
  }

  /** Some successor of block b starts at statement j. */
  ghost predicate Leads(cfg: Cfg, b: Block, j: nat) {
    exists s :: s in b.successors && s < |cfg.blocks| && Lo(cfg.blocks[s]) == j
  }

  lemma {:induction false} JumpLeads(nodes: seq<Node>, cfg: Cfg, b: Block, to: string, j: nat)
    requires CfgOf(nodes, cfg) && nodes != [] && b.successors == Resolve(cfg.labelToBlock, to)
    ensures LastLabel(nodes, |nodes|, to) == Some(j) <==> Leads(cfg, b, j)
    ensures forall s :: s in b.successors ==> s < |cfg.blocks|
  {
    BuiltLabel(nodes, cfg, to);
    if to in cfg.labelToBlock {
      assert cfg.labelToBlock[to] in b.successors;
    }
  }

  lemma {:induction false} BranchLeads(nodes: seq<Node>, cfg: Cfg, b: Block, t: string, f: string, j: nat)
    requires CfgOf(nodes, cfg) && nodes != []
    requires b.successors == Resolve(cfg.labelToBlock, t) + Resolve(cfg.labelToBlock, f)
    ensures (LastLabel(nodes, |nodes|, t) == Some(j) || LastLabel(nodes, |nodes|, f) == Some(j))
         <==> Leads(cfg, b, j)
    ensures forall s :: s in b.successors ==> s < |cfg.blocks|
  {
    var bt := b.(successors := Resolve(cfg.labelToBlock, t));
    var bf := b.(successors := Resolve(cfg.labelToBlock, f));
    JumpLeads(nodes, cfg, bt, t, j);
    JumpLeads(nodes, cfg, bf, f, j);
    assert forall s :: s in b.successors <==> s in bt.successors || s in bf.successors;
  }

  /** The last statement of block k is followed by the first statements of its successors. */
  lemma {:induction false} EndOfBlock(nodes: seq<Node>, cfg: Cfg, k: nat, j: nat)
    requires CfgOf(nodes, cfg) && nodes != [] && BlockFacts(nodes, cfg, k)
    ensures var b := cfg.blocks[k];
      && Lo(b) < Hi(b) <= |nodes|
      && (Follows(nodes, Hi(b) - 1, j) <==> Leads(cfg, b, j))
      && (IsExit(b) <==> b.successors == [])
      && forall s :: s in b.successors ==> s < |cfg.blocks|
  {
    var b := cfg.blocks[k];
    match b.terminator
    case JumpTo(to) => JumpLeads(nodes, cfg, b, to, j);
    case BranchTo(t, f) => BranchLeads(nodes, cfg, b, t, f, j);
    case _ => StraightOn(nodes, cfg, k, j);
  }

  lemma {:induction false} StraightOn(nodes: seq<Node>, cfg: Cfg, k: nat, j: nat)
    requires BlockFacts(nodes, cfg, k) && !Transfers(nodes[Hi(cfg.blocks[k]) - 1])
    ensures var b := cfg.blocks[k];
      && (Follows(nodes, Hi(b) - 1, j) <==> Leads(cfg, b, j))
      && (IsExit(b) <==> b.successors == [])
      && forall s :: s in b.successors ==> s < |cfg.blocks|
  {
    var b := cfg.blocks[k];
    if Hi(b) < |nodes| {
      assert b.successors == [k + 1];
      assert (k + 1) in b.successors;
    } else {
      assert b.successors == [];
    }
  }

  /** Block k is a straight piece of the list that leaves as its last statement does. */
  ghost predicate Flows(nodes: seq<Node>, cfg: Cfg, k: nat) {
    && k < |cfg.blocks|
    && var b := cfg.blocks[k];
    && Lo(b) < Hi(b) <= |nodes| && b.statements == Span(Lo(b), Hi(b)) && (k == 0 ==> Lo(b) == 0)
    && (forall i {:trigger nodes[i]} :: Lo(b) <= i < Hi(b) - 1 ==> !Transfers(nodes[i]))
    && (forall j: nat {:trigger Leads(cfg, b, j)} :: Follows(nodes, Hi(b) - 1, j) <==> Leads(cfg, b, j))
    && (IsExit(b) <==> b.successors == [])
    && (forall s :: s in b.successors ==> s < |cfg.blocks|)
  }

  /** What the theorems use of the built graph. */
  ghost predicate Faithful(nodes: seq<Node>, cfg: Cfg) {
    && cfg.entry == 0 && |cfg.blocks| > 0
    && forall k {:trigger Flows(nodes, cfg, k)} :: 0 <= k < |cfg.blocks| ==> Flows(nodes, cfg, k)
  }

  lemma {:induction false} BuiltBlockFlows(nodes: seq<Node>, cfg: Cfg, k: nat)
    requires CfgOf(nodes, cfg) && nodes != [] && k < |cfg.blocks|
    ensures Flows(nodes, cfg, k)
  {
    BuiltBlock(nodes, cfg, k);
    var b := cfg.blocks[k];
    EndOfBlock(nodes, cfg, k, 0);
    forall i | Lo(b) <= i < Hi(b) - 1 ensures !Transfers(nodes[i]) {
      assert !Boundary(nodes, i + 1);
    }
    forall j: nat ensures Leads(cfg, b, j) <==> Follows(nodes, Hi(b) - 1, j) {
      EndOfBlock(nodes, cfg, k, j);
    }
  }

  lemma {:induction false} BuiltIsFaithful(nodes: seq<Node>, cfg: Cfg)
    requires CfgOf(nodes, cfg) && nodes != []
    ensures Faithful(nodes, cfg)
  {
    ScanAllCuts(nodes);
    forall k | 0 <= k < |cfg.blocks| ensures Flows(nodes, cfg, k) {
      BuiltBlockFlows(nodes, cfg, k);
    }
  }

  lemma {:induction false} ExitsEnd(nodes: seq<Node>, cfg: Cfg, k: nat)
    requires Flows(nodes, cfg, k)
    ensures Ends(nodes, Hi(cfg.blocks[k]) - 1) <==> IsExit(cfg.blocks[k])
  {
    var b := cfg.blocks[k];
    var last: nat := Hi(b) - 1;
    if b.successors != [] {
      var s := b.successors[0];
      assert s in b.successors;
      assert Leads(cfg, b, Lo(cfg.blocks[s]));
      assert Follows(nodes, last, Lo(cfg.blocks[s]));
    } else {
      forall j: nat ensures !Follows(nodes, last, j) {
        assert !Leads(cfg, b, j);
      }
    }
  }

  // ----- every walk is an execution ---------------------------------------------------

  lemma {:induction false} WalkPrefix(cfg: Cfg, w: seq<nat>, n: nat)
    requires Walk(cfg, w) && 0 < n <= |w|
    ensures Walk(cfg, w[..n])
  {
    var p := w[..n];
    forall i | 0 < i < n ensures Edge(cfg, p[i - 1], p[i]) {
      assert p[i] == w[i] && p[i - 1] == w[i - 1];
    }
  }

  lemma {:induction false} ExecutionExtends(nodes: seq<Node>, r: seq<nat>, lo: nat, hi: nat)
    requires Execution(nodes, r) && lo < hi <= |nodes|
    requires if r == [] then lo == 0 else Follows(nodes, r[|r| - 1], lo)
    requires forall i {:trigger nodes[i]} :: lo <= i < hi - 1 ==> !Transfers(nodes[i])
    ensures Execution(nodes, r + Span(lo, hi))
  {
    var e, n := r + Span(lo, hi), |r|;
    forall i | 0 < i < |e| ensures Follows(nodes, e[i - 1], e[i]) {
      if i < n {
        assert e[i] == r[i] && e[i - 1] == r[i - 1];
      } else if i == n {
        assert e[i] == lo && e[i - 1] == r[n - 1];
      } else {
        assert e[i] == lo + (i - n) && e[i - 1] == lo + (i - n) - 1;
        assert !Transfers(nodes[e[i - 1]]);
      }
    }
  }

  /** Appending the block an edge leads to. */
  lemma {:induction false} ExecutionEntersBlock(nodes: seq<Node>, cfg: Cfg, r: seq<nat>, a: nat, k: nat)
    requires Faithful(nodes, cfg) && Edge(cfg, a, k)
    requires Execution(nodes, r) && r != [] && r[|r| - 1] == Hi(cfg.blocks[a]) - 1
    ensures Execution(nodes, r + cfg.blocks[k].statements)
  {
    assert Flows(nodes, cfg, a) && Flows(nodes, cfg, k);
    assert Leads(cfg, cfg.blocks[a], Lo(cfg.blocks[k]));
    ExecutionExtends(nodes, r, Lo(cfg.blocks[k]), Hi(cfg.blocks[k]));
  }

  lemma {:induction false} WalkIsExecution(nodes: seq<Node>, cfg: Cfg, w: seq<nat>)
    requires Faithful(nodes, cfg) && Walk(cfg, w)
    ensures Visits(cfg, w) != [] && Execution(nodes, Visits(cfg, w))
    ensures Visits(cfg, w)[|Visits(cfg, w)| - 1] == Hi(cfg.blocks[w[|w| - 1]]) - 1
  {
    var n := |w| - 1;
    assert Flows(nodes, cfg, w[n]);
    if n == 0 {
      assert Visits(cfg, w[..0]) == [];
      ExecutionExtends(nodes, [], Lo(cfg.blocks[0]), Hi(cfg.blocks[0]));
    } else {
      WalkPrefix(cfg, w, n);
      WalkIsExecution(nodes, cfg, w[..n]);
      assert Edge(cfg, w[n - 1], w[n]);
      ExecutionEntersBlock(nodes, cfg, Visits(cfg, w[..n]), w[n - 1], w[n]);
    }
  }

  // ----- every execution is the beginning of a walk -------------------------------------

  /** r stops inside the last block of w. */
  ghost predicate Covers(cfg: Cfg, w: seq<nat>, r: seq<nat>) {
    && Walk(cfg, w) && r <= Visits(cfg, w)
    && |Visits(cfg, w[..|w| - 1])| < |r|
  }

  /** The statement at which an execution covered by w stands. */
  lemma {:induction false} StandsAt(nodes: seq<Node>, cfg: Cfg, w: seq<nat>, r: seq<nat>)
    requires Faithful(nodes, cfg) && Covers(cfg, w, r)
    ensures var b := cfg.blocks[w[|w| - 1]];
      && r != [] && Lo(b) <= r[|r| - 1] < Hi(b) <= |nodes|
      && (r[|r| - 1] == Hi(b) - 1 <==> r == Visits(cfg, w))
      && (r != Visits(cfg, w) ==> |r| < |Visits(cfg, w)| && Visits(cfg, w)[|r|] == r[|r| - 1] + 1)
  {
    assert Flows(nodes, cfg, w[|w| - 1]);
  }

  lemma {:induction false} WalkExtends(cfg: Cfg, w: seq<nat>, s: nat)
    requires Walk(cfg, w) && Edge(cfg, w[|w| - 1], s)
    ensures Walk(cfg, w + [s])
  {
    var e := w + [s];
    forall i | 0 < i < |e| ensures Edge(cfg, e[i - 1], e[i]) {
      assert i < |w| ==> e[i] == w[i];
      assert e[i - 1] == w[i - 1];
    }
  }

  /** At the end of the last block: one more block. */
  lemma {:induction false} CoverNextBlock(nodes: seq<Node>, cfg: Cfg, w: seq<nat>, j: nat) returns (w': seq<nat>)
    requires Faithful(nodes, cfg) && Walk(cfg, w)
    requires Hi(cfg.blocks[w[|w| - 1]]) <= |nodes| && 0 < Hi(cfg.blocks[w[|w| - 1]])
    requires Follows(nodes, Hi(cfg.blocks[w[|w| - 1]]) - 1, j)
    ensures Covers(cfg, w', Visits(cfg, w) + [j])
  {
    var b := cfg.blocks[w[|w| - 1]];
    assert Flows(nodes, cfg, w[|w| - 1]);
    assert Leads(cfg, b, j);
    var s :| s in b.successors && s < |cfg.blocks| && Lo(cfg.blocks[s]) == j;
    assert Flows(nodes, cfg, s);
    CoverEnters(cfg, w, s);
    w' := w + [s];
  }

  lemma {:induction false} CoverEnters(cfg: Cfg, w: seq<nat>, s: nat)
    requires Walk(cfg, w) && Edge(cfg, w[|w| - 1], s) && cfg.blocks[s].statements != []
    ensures Covers(cfg, w + [s], Visits(cfg, w) + [cfg.blocks[s].statements[0]])
  {
    WalkExtends(cfg, w, s);
    assert (w + [s])[..|w|] == w;
  }

  lemma {:induction false} CoverStep(nodes: seq<Node>, cfg: Cfg, w: seq<nat>, r: seq<nat>, j: nat)
    returns (w': seq<nat>)
    requires Faithful(nodes, cfg) && Covers(cfg, w, r) && r[|r| - 1] < |nodes|
    requires Follows(nodes, r[|r| - 1], j)
    ensures Covers(cfg, w', r + [j])
  {
    StandsAt(nodes, cfg, w, r);
    if r == Visits(cfg, w) {
      w' := CoverNextBlock(nodes, cfg, w, j);
    } else {
      assert Flows(nodes, cfg, w[|w| - 1]);
      assert !Transfers(nodes[r[|r| - 1]]);
      w' := w;
    }
  }

  lemma {:induction false} ExecutionPrefix(nodes: seq<Node>, r: seq<nat>, n: nat)
    requires Execution(nodes, r) && n <= |r|
    ensures Execution(nodes, r[..n])
  {
    var p := r[..n];
    forall i | 0 < i < n ensures Follows(nodes, p[i - 1], p[i]) {
      assert p[i] == r[i] && p[i - 1] == r[i - 1];
    }
  }

  lemma {:induction false} ExecutionIsCovered(nodes: seq<Node>, cfg: Cfg, r: seq<nat>) returns (w: seq<nat>)
    requires Faithful(nodes, cfg) && Execution(nodes, r) && r != []
    ensures Covers(cfg, w, r)
  {
    var n := |r| - 1;
    if n == 0 {
      w := [0];
      assert Flows(nodes, cfg, 0);
      assert w[..0] == [] && Visits(cfg, w[..0]) == [];
    } else {
      ExecutionPrefix(nodes, r, n);
      var w0 := ExecutionIsCovered(nodes, cfg, r[..n]);
      assert Follows(nodes, r[n - 1], r[n]);
      w := CoverStep(nodes, cfg, w0, r[..n], r[n]);
      assert r[..n] + [r[n]] == r;
    }
  }

  // ----- the theorems -------------------------------------------------------------------

  lemma {:induction false} CompleteIsExitWalk(nodes: seq<Node>, cfg: Cfg, r: seq<nat>) returns (w: seq<nat>)
    requires Faithful(nodes, cfg) && CompleteExecution(nodes, r)
    ensures ExitWalk(cfg, w) && Visits(cfg, w) == r
  {
    assert Flows(nodes, cfg, 0);
    w := ExecutionIsCovered(nodes, cfg, r);
    InsideGoesOn(nodes, cfg, w, r);
    StandsAt(nodes, cfg, w, r);
    assert Flows(nodes, cfg, w[|w| - 1]);
    ExitsEnd(nodes, cfg, w[|w| - 1]);
  }

  /** An execution that ends inside a block can go on. */
  lemma {:induction false} InsideGoesOn(nodes: seq<Node>, cfg: Cfg, w: seq<nat>, r: seq<nat>)
    requires Faithful(nodes, cfg) && Covers(cfg, w, r) && r[|r| - 1] < |nodes|
    ensures r != Visits(cfg, w) ==> !Ends(nodes, r[|r| - 1])
  {
    StandsAt(nodes, cfg, w, r);
    if r != Visits(cfg, w) {
      var last := r[|r| - 1];
      assert Flows(nodes, cfg, w[|w| - 1]);
      assert !Transfers(nodes[last]);
      assert Follows(nodes, last, last + 1);
    }
  }

  lemma {:induction false} ExitWalkIsComplete(nodes: seq<Node>, cfg: Cfg, w: seq<nat>)
    requires Faithful(nodes, cfg) && ExitWalk(cfg, w)
    ensures CompleteExecution(nodes, Visits(cfg, w))
  {
    WalkIsExecution(nodes, cfg, w);
    assert Flows(nodes, cfg, w[|w| - 1]);
    ExitsEnd(nodes, cfg, w[|w| - 1]);
  }

  lemma {:induction false} EmptyProgram(cfg: Cfg)
    requires CfgOf([], cfg)
    ensures ExitWalk(cfg, [0]) && Visits(cfg, [0]) == []
    ensures forall w :: Walk(cfg, w) ==> w == [0]
  {
    var b0 := ScanAll([]).blocks;
    assert b0 == [NewBlock.(terminator := Return)];
    assert SameBody(b0[0], cfg.blocks[0]);
    var w0: seq<nat> := [0];
    assert w0[..0] == [];
    forall w | Walk(cfg, w) ensures w == [0] {
      assert |w| > 1 ==> Edge(cfg, w[0], w[1]);
    }
  }

  /** The CFG preserves meaning, complete executions: they are exactly what the walks from
      the entry to an exit visit. */
  lemma {:induction false} CompleteExecutionsAreExitWalks(nodes: seq<Node>, cfg: Cfg, r: seq<nat>)
    requires CfgOf(nodes, cfg)
    ensures CompleteExecution(nodes, r) <==> exists w :: ExitWalk(cfg, w) && Visits(cfg, w) == r
  {
    if nodes == [] {
      EmptyProgram(cfg);
    } else {
      BuiltIsFaithful(nodes, cfg);
      if CompleteExecution(nodes, r) {
        var w := CompleteIsExitWalk(nodes, cfg, r);
      }
      if w :| ExitWalk(cfg, w) && Visits(cfg, w) == r {
        ExitWalkIsComplete(nodes, cfg, w);
      }
    }
  }

  /** The CFG preserves meaning, all executions: each visits a prefix of what some walk
      visits, ending inside its last block; and whatever a walk visits is an execution. */
  lemma {:induction false} ExecutionsAreWalks(nodes: seq<Node>, cfg: Cfg, r: seq<nat>)
    requires CfgOf(nodes, cfg) && r != []
    ensures Execution(nodes, r) <==> exists w :: Covers(cfg, w, r)
  {
    if nodes == [] {
      EmptyProgram(cfg);
    } else {
      BuiltIsFaithful(nodes, cfg);
      if Execution(nodes, r) {
        var w := ExecutionIsCovered(nodes, cfg, r);
      }
      if w :| Covers(cfg, w, r) {
        WalkIsExecution(nodes, cfg, w);
        ExecutionPrefix(nodes, Visits(cfg, w), |r|);
      }
    }
  }

  function Concatenated(blocks: seq<Block>): seq<nat> {
    if blocks == [] then [] else Concatenated(blocks[..|blocks| - 1]) + blocks[|blocks| - 1].statements
  }

  lemma {:induction false} CutConcatenates(nodes: seq<Node>, blocks: seq<Block>)
    requires Cut(nodes, blocks)
    ensures Concatenated(blocks) == Span(0, End(blocks))
  {
    if blocks != [] {
      var n := |blocks| - 1;
      CutConcatenates(nodes, blocks[..n]);
      assert Span(0, Lo(blocks[n])) + Span(Lo(blocks[n]), Hi(blocks[n])) == Span(0, Hi(blocks[n]));
    }
  }

  /** Every statement lies in exactly one block, at exactly one place: the blocks, read one
      after the other, are the statement list. */
  lemma {:induction false} BlocksPartitionTheStatements(nodes: seq<Node>, cfg: Cfg)
    requires CfgOf(nodes, cfg)
    ensures Concatenated(cfg.blocks) == Span(0, |nodes|)
  {
    var b0 := ScanAll(nodes).blocks;
    SameStatements(b0, cfg.blocks);
    if nodes == [] {
      assert b0[..0] == [];
    } else {
      ScanAllCuts(nodes);
      CutConcatenates(nodes, b0);
    }
  }

  lemma {:induction false} SameStatements(a: seq<Block>, b: seq<Block>)
    requires |a| == |b| && forall k {:trigger b[k]} :: 0 <= k < |a| ==> a[k].statements == b[k].statements
    ensures Concatenated(a) == Concatenated(b)
  {
    if a != [] {
      SameStatements(a[..|a| - 1], b[..|b| - 1]);
    }
  }
}
