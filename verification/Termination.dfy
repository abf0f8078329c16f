/** The structural termination check, compiler/src/cfg.rs:168-201. */
module Termination {
  import opened Ast
  import opened CfgBuilder
  import opened CfgMeaning
  import opened CfgPaths
  import opened WritesOutput

  ghost predicate Path(cfg: Cfg, p: seq<nat>) {
    && p != [] && (forall i :: 0 <= i < |p| ==> p[i] < |cfg.blocks|)
    && forall i, j :: 0 <= i < |p| && 0 <= j < |p| && j == i + 1 ==> p[j] in cfg.blocks[p[i]].successors
  }

  ghost predicate Connects(cfg: Cfg, p: seq<nat>, a: nat, b: nat) {
    Path(cfg, p) && p[0] == a && Last(p) == b
  }

  ghost predicate Reaches(cfg: Cfg, a: nat, b: nat) { exists p :: Connects(cfg, p, a, b) }

  ghost predicate CanExit(cfg: Cfg, a: nat) {
    exists e :: 0 <= e < |cfg.blocks| && IsExit(cfg.blocks[e]) && Reaches(cfg, a, e)
  }

  /** As the builder leaves it: ids are indices and the exits are listed. */
  ghost predicate Listed(cfg: Cfg) {
    && InRange(cfg)
    && (forall k :: 0 <= k < |cfg.blocks| ==> cfg.blocks[k].id == k)
    && (forall k: nat :: k in cfg.exits <==> k < |cfg.blocks| && IsExit(cfg.blocks[k]))
  }

  lemma {:induction false} ReachesItself(cfg: Cfg, a: nat)
    requires a < |cfg.blocks|
    ensures Reaches(cfg, a, a)
  {
    assert Connects(cfg, [a], a, a);
  }

  lemma {:induction false} ReachesOneMore(cfg: Cfg, a: nat, b: nat, c: nat)
    requires Reaches(cfg, a, b) && b < |cfg.blocks| && c < |cfg.blocks| && c in cfg.blocks[b].successors
    ensures Reaches(cfg, a, c)
  {
    var p :| Connects(cfg, p, a, b);
    assert Connects(cfg, p + [c], a, c);
  }

  lemma {:induction false} OneMoreReaches(cfg: Cfg, a: nat, b: nat, c: nat)
    requires Reaches(cfg, b, c) && a < |cfg.blocks| && b in cfg.blocks[a].successors
    ensures Reaches(cfg, a, c)
  {
    var p :| Connects(cfg, p, b, c);
    assert Connects(cfg, [a] + p, a, c);
  }

  /** A set that contains a and is closed under successors contains all a reaches. */
  lemma {:induction false} ClosedContainsReached(cfg: Cfg, s: set<nat>, p: seq<nat>)
    requires Path(cfg, p) && p[0] in s
    requires forall k, m :: 0 <= k < |cfg.blocks| && k in s && m in cfg.blocks[k].successors ==> m in s
    ensures Last(p) in s
  {
    if |p| > 1 {
      var q := p[..|p| - 1];
      assert Path(cfg, q);
      ClosedContainsReached(cfg, s, q);
      assert p[|p| - 1] in cfg.blocks[p[|p| - 2]].successors;
    }
  }

  ghost predicate BackwardClosed(cfg: Cfg, s: set<nat>, n: nat) {
    forall k, m | 0 <= k < n && k < |cfg.blocks| && m in cfg.blocks[k].successors :: m in s ==> k in s
  }

  /** A set that contains the exits and every block with a successor in it contains every
      block that can exit. */
  lemma {:induction false} BackwardClosedContains(cfg: Cfg, s: set<nat>, p: seq<nat>)
    requires Path(cfg, p) && Last(p) in s
    requires BackwardClosed(cfg, s, |cfg.blocks|)
    ensures p[0] in s
  {
    if |p| > 1 {
      var q := p[1..];
      assert Path(cfg, q);
      BackwardClosedContains(cfg, s, q);
      assert p[1] in cfg.blocks[p[0]].successors;
    }
  }

  function Below(n: nat): (s: set<nat>)
    ensures forall k: nat :: k in s <==> k < n
  {
    if n == 0 then {} else Below(n - 1) + {n - 1}
  }

  /** Forward reachability from the entry. */
  method Reachable(cfg: Cfg) returns (reachable: set<nat>)
    requires InRange(cfg)
    ensures forall b: nat :: b in reachable <==> Reaches(cfg, cfg.entry, b)
  {
    reachable := {};
    var stack := [cfg.entry];
    ghost var all := Below(|cfg.blocks|);
    ReachesItself(cfg, cfg.entry);
    while stack != []
      invariant cfg.entry in reachable || cfg.entry in stack
      invariant reachable <= all && forall b :: b in stack ==> b in all
      invariant forall b :: b in reachable || b in stack ==> Reaches(cfg, cfg.entry, b)
      invariant forall k, m :: 0 <= k < |cfg.blocks| && k in reachable && m in cfg.blocks[k].successors
                  ==> m in reachable || m in stack
      decreases all - reachable, |stack|
    {
      var b := stack[|stack| - 1];
      ghost var before := stack;
      stack := stack[..|stack| - 1];
      assert forall x :: x in before <==> x in stack || x == b;
      if b in reachable {
        continue;
      }
      reachable := reachable + {b};
      var succs := cfg.blocks[b].successors;
      forall m | m in succs ensures Reaches(cfg, cfg.entry, m) {
        ReachesOneMore(cfg, cfg.entry, b, m);
      }
      stack := stack + succs;
    }
    forall b | Reaches(cfg, cfg.entry, b) ensures b in reachable {
      var p :| Connects(cfg, p, cfg.entry, b);
      ClosedContainsReached(cfg, reachable, p);
    }
  }

  /** One sweep of the backward fixpoint. */
  method Sweep(cfg: Cfg, canExit: set<nat>) returns (next: set<nat>, changed: bool)
    requires Listed(cfg)
    requires forall b :: b in canExit ==> b < |cfg.blocks| && CanExit(cfg, b)
    ensures canExit <= next && forall b :: b in next ==> b < |cfg.blocks| && CanExit(cfg, b)
    ensures changed ==> exists x :: x in next && x !in canExit
    ensures !changed ==> next == canExit && BackwardClosed(cfg, next, |cfg.blocks|)
  {
    next, changed := canExit, false;
    for i := 0 to |cfg.blocks|
      invariant canExit <= next && forall b :: b in next ==> b < |cfg.blocks| && CanExit(cfg, b)
      invariant changed ==> exists x :: x in next && x !in canExit
      invariant !changed ==> next == canExit && BackwardClosed(cfg, next, i)
    {
      var b := cfg.blocks[i];
      if b.id in next {
        continue;
      }
      if exists s :: s in b.successors && s in next {
        var s :| s in b.successors && s in next;
        ghost var e :| 0 <= e < |cfg.blocks| && IsExit(cfg.blocks[e]) && Reaches(cfg, s, e);
        OneMoreReaches(cfg, i, s, e);
        next := next + {b.id};
        changed := true;
      }
    }
  }

  /** Blocks from which an exit can be reached. */
  method CanExitSet(cfg: Cfg) returns (canExit: set<nat>)
    requires Listed(cfg)
    ensures forall b: nat :: b in canExit <==> b < |cfg.blocks| && CanExit(cfg, b)
  {
    ExitsCanExit(cfg);
    canExit := set e | e in cfg.exits;
    ghost var all: set<nat> := Below(|cfg.blocks|);
    var changed := true;
    while changed
      invariant forall e :: e in cfg.exits ==> e in canExit
      invariant forall b :: b in canExit ==> b < |cfg.blocks| && CanExit(cfg, b)
      invariant !changed ==> BackwardClosed(cfg, canExit, |cfg.blocks|)
      decreases all - canExit, changed
    {
      ghost var before := canExit;
      canExit, changed := Sweep(cfg, canExit);
      if changed {
        MissingShrinks(all, before, canExit);
      }
    }
    BackwardClosedIsComplete(cfg, canExit);
  }

  lemma {:induction false} BackwardClosedIsComplete(cfg: Cfg, s: set<nat>)
    requires Listed(cfg) && BackwardClosed(cfg, s, |cfg.blocks|) && forall e :: e in cfg.exits ==> e in s
    ensures forall b: nat :: b < |cfg.blocks| && CanExit(cfg, b) ==> b in s
  {
    forall b: nat | b < |cfg.blocks| && CanExit(cfg, b) ensures b in s {
      var e :| 0 <= e < |cfg.blocks| && IsExit(cfg.blocks[e]) && Reaches(cfg, b, e);
      var p :| Connects(cfg, p, b, e);
      BackwardClosedContains(cfg, s, p);
    }
  }

  lemma {:induction false} ExitsCanExit(cfg: Cfg)
    requires Listed(cfg)
    ensures forall b :: b in cfg.exits ==> b < |cfg.blocks| && CanExit(cfg, b)
  {
    forall b | b in cfg.exits ensures CanExit(cfg, b) {
      ReachesItself(cfg, b);
    }
  }

  lemma {:induction false} MissingShrinks(all: set<nat>, before: set<nat>, after: set<nat>)
    requires before <= after <= all && exists x :: x in after && x !in before
    ensures all - after < all - before
  {
    var x :| x in after && x !in before;
    assert x in all - before;
  }

  ghost predicate Structural(cfg: Cfg) {
    forall b: nat :: Reaches(cfg, cfg.entry, b) ==> CanExit(cfg, b)
  }

  /** all_paths_terminate decides whether every reachable block can reach an exit. */
  method AllPathsTerminate(cfg: Cfg) returns (ok: bool)
    requires Listed(cfg)
    ensures ok <==> Structural(cfg)
  {
    var reachable := Reachable(cfg);
    var canExit := CanExitSet(cfg);
    ok := forall b :: b in reachable ==> b in canExit;
    forall b: nat | Reaches(cfg, cfg.entry, b) ensures b < |cfg.blocks| {
      var p :| Connects(cfg, p, cfg.entry, b);
    }
  }

  // ----- what the verdict means for executions ---------------------------------------------

  ghost predicate Finishable(nodes: seq<Node>, r: seq<nat>) {
    exists r' :: CompleteExecution(nodes, r') && r <= r'
  }

  /** Whatever has been executed so far, some continuation leaves the behavior. */
  ghost predicate NeverTrapped(nodes: seq<Node>) {
    forall r :: Execution(nodes, r) ==> Finishable(nodes, r)
  }

  /** In the built graph only blocks without successors are exits. */
  ghost predicate ExitsStop(cfg: Cfg) {
    forall k :: 0 <= k < |cfg.blocks| ==> (IsExit(cfg.blocks[k]) <==> cfg.blocks[k].successors == [])
  }

  lemma {:induction false} WalkThenPath(cfg: Cfg, w: seq<nat>, p: seq<nat>)
    requires Walk(cfg, w) && Path(cfg, p) && p[0] == Last(w) && ExitsStop(cfg)
    ensures Walk(cfg, w + p[1..]) && Last(w + p[1..]) == Last(p)
    ensures Visits(cfg, w) <= Visits(cfg, w + p[1..])
  {
    var n := |p| - 1;
    if n == 0 {
      assert w + p[1..] == w;
    } else {
      var q := p[..n];
      assert Path(cfg, q);
      WalkThenPath(cfg, w, q);
      var w1 := w + q[1..];
      assert p[n] in cfg.blocks[p[n - 1]].successors;
      WalkExtends(cfg, w1, p[n]);
      assert w + p[1..] == w1 + [p[n]];
      assert (w1 + [p[n]])[..|w1|] == w1;
    }
  }

  lemma {:induction false} PathIsWalk(cfg: Cfg, p: seq<nat>)
    requires Path(cfg, p) && p[0] == cfg.entry && ExitsStop(cfg)
    ensures Walk(cfg, p)
  {
    forall i, j | 0 <= i < |p| && 0 <= j < |p| && j == i + 1 ensures Edge(cfg, p[i], p[j]) {
      assert p[j] in cfg.blocks[p[i]].successors;
    }
  }

  lemma {:induction false} WalkIsPath(cfg: Cfg, w: seq<nat>, m: nat)
    requires Walk(cfg, w) && m < |w|
    ensures Path(cfg, w[m..]) && Path(cfg, w[..m + 1])
  {
    forall i, j | 0 <= i < |w| && 0 <= j < |w| && j == i + 1 ensures w[j] in cfg.blocks[w[i]].successors {
      assert Edge(cfg, w[i], w[j]);
    }
  }

  lemma {:induction false} FinishFrom(nodes: seq<Node>, cfg: Cfg, r: seq<nat>)
    requires Faithful(nodes, cfg) && ExitsStop(cfg) && Structural(cfg) && Execution(nodes, r) && r != []
    ensures Finishable(nodes, r)
  {
    var w := ExecutionIsCovered(nodes, cfg, r);
    var k := Last(w);
    WalkIsPath(cfg, w, |w| - 1);
    assert w[..|w|] == w;
    assert Connects(cfg, w, cfg.entry, k);
    assert CanExit(cfg, k);
    var e :| 0 <= e < |cfg.blocks| && IsExit(cfg.blocks[e]) && Reaches(cfg, k, e);
    var p :| Connects(cfg, p, k, e);
    WalkThenPath(cfg, w, p);
    ExitWalkIsComplete(nodes, cfg, w + p[1..]);
    assert r <= Visits(cfg, w) <= Visits(cfg, w + p[1..]);
  }

  lemma {:induction false} FinishFromStart(nodes: seq<Node>, cfg: Cfg)
    requires Faithful(nodes, cfg) && ExitsStop(cfg) && Structural(cfg)
    ensures Finishable(nodes, [])
  {
    assert Flows(nodes, cfg, 0);
    var first: seq<nat> := [0];
    FinishFrom(nodes, cfg, first);
    var r' :| CompleteExecution(nodes, r') && first <= r';
    assert [] <= r';
  }

  /** Two blocks share no statement. */
  lemma {:induction false} BlocksDisjoint(nodes: seq<Node>, blocks: seq<Block>, k: nat, m: nat)
    requires Cut(nodes, blocks) && k < m < |blocks|
    ensures Hi(blocks[k]) <= Lo(blocks[m])
  {
    CutAt(nodes, blocks, m - 1);
    if k < m - 1 {
      BlocksDisjoint(nodes, blocks, k, m - 1);
    }
  }

  lemma {:induction false} StatementNamesBlock(nodes: seq<Node>, cfg: Cfg, k: nat, m: nat, i: nat)
    requires CfgOf(nodes, cfg) && nodes != [] && k < |cfg.blocks| && m < |cfg.blocks|
    requires i in cfg.blocks[k].statements && i in cfg.blocks[m].statements
    ensures k == m
  {
    var b0 := ScanAll(nodes).blocks;
    ScanAllCuts(nodes);
    assert SameBody(b0[k], cfg.blocks[k]) && SameBody(b0[m], cfg.blocks[m]);
    CutAt(nodes, b0, k);
    CutAt(nodes, b0, m);
    if k < m {
      BlocksDisjoint(nodes, b0, k, m);
    } else if m < k {
      BlocksDisjoint(nodes, b0, m, k);
    }
  }

  /** A block whose statement an exit walk visits can reach an exit. */
  lemma {:induction false} VisitedBlockCanExit(nodes: seq<Node>, cfg: Cfg, w: seq<nat>, k: nat, i: nat)
    requires CfgOf(nodes, cfg) && nodes != [] && ExitWalk(cfg, w)
    requires k < |cfg.blocks| && i in cfg.blocks[k].statements && i in Visits(cfg, w)
    ensures CanExit(cfg, k)
  {
    var m := VisitedInSomeBlock(cfg, w, i);
    StatementNamesBlock(nodes, cfg, k, w[m], i);
    ExitsFromHere(cfg, w, m);
  }

  lemma {:induction false} ExitsFromHere(cfg: Cfg, w: seq<nat>, m: nat)
    requires ExitWalk(cfg, w) && m < |w|
    ensures CanExit(cfg, w[m])
  {
    WalkIsPath(cfg, w, m);
    assert Connects(cfg, w[m..], w[m], Last(w));
  }

  /** If the execution along a walk can be finished, some exit walk visits the last statement
      of the block the walk leads to. */
  lemma {:induction false} FinishedThrough(nodes: seq<Node>, cfg: Cfg, v: seq<nat>, i: nat) returns (w: seq<nat>)
    requires Faithful(nodes, cfg) && Finishable(nodes, v) && v != [] && i == v[|v| - 1]
    ensures ExitWalk(cfg, w) && i in Visits(cfg, w)
  {
    var r' :| CompleteExecution(nodes, r') && v <= r';
    w := CompleteIsExitWalk(nodes, cfg, r');
    assert r'[|v| - 1] == i;
  }

  lemma {:induction false} LastStatementInBlock(nodes: seq<Node>, cfg: Cfg, k: nat)
    requires Faithful(nodes, cfg) && k < |cfg.blocks|
    ensures Hi(cfg.blocks[k]) > 0 && (Hi(cfg.blocks[k]) - 1) in cfg.blocks[k].statements
  {
    assert Flows(nodes, cfg, k);
    var b := cfg.blocks[k];
    assert b.statements[|b.statements| - 1] == Hi(b) - 1;
  }

  /** If every execution can be finished, every reachable block can reach an exit. */
  lemma {:induction false} FinishableBlockCanExit(nodes: seq<Node>, cfg: Cfg, k: nat)
    requires CfgOf(nodes, cfg) && nodes != [] && Faithful(nodes, cfg) && ExitsStop(cfg)
    requires NeverTrapped(nodes) && Reaches(cfg, cfg.entry, k)
    ensures CanExit(cfg, k)
  {
    var p :| Connects(cfg, p, cfg.entry, k);
    PathIsWalk(cfg, p);
    WalkIsExecution(nodes, cfg, p);
    assert Finishable(nodes, Visits(cfg, p));
    LastStatementInBlock(nodes, cfg, k);
    var i: nat := Hi(cfg.blocks[k]) - 1;
    var w := FinishedThrough(nodes, cfg, Visits(cfg, p), i);
    VisitedBlockCanExit(nodes, cfg, w, k, i);
  }

  lemma {:induction false} BuiltIsListed(nodes: seq<Node>, cfg: Cfg)
    requires CfgOf(nodes, cfg)
    ensures Listed(cfg) && ExitsStop(cfg)
  {
    BuiltInRange(nodes, cfg);
    ScanAllUnconnected(nodes);
    forall k | 0 <= k < |cfg.blocks| ensures cfg.blocks[k].id == k {
      assert SameBody(ScanAll(nodes).blocks[k], cfg.blocks[k]);
    }
    if nodes == [] {
      assert SameBody(ScanAll(nodes).blocks[0], cfg.blocks[0]);
    } else {
      BuiltIsFaithful(nodes, cfg);
      forall k | 0 <= k < |cfg.blocks| ensures IsExit(cfg.blocks[k]) <==> cfg.blocks[k].successors == [] {
        assert Flows(nodes, cfg, k);
      }
    }
  }

  lemma {:induction false} EmptyIsStructural(cfg: Cfg)
    requires CfgOf([], cfg) && ExitsStop(cfg)
    ensures Structural(cfg) && NeverTrapped([])
  {
    EmptyProgram(cfg);
    forall b: nat | Reaches(cfg, cfg.entry, b) ensures CanExit(cfg, b) {
      var p :| Connects(cfg, p, cfg.entry, b);
      PathIsWalk(cfg, p);
      ReachesItself(cfg, 0);
    }
    forall r | Execution([], r) ensures Finishable([], r) {
      assert r == [];
      assert CompleteExecution([], r);
    }
  }

  /** The verdict is exact: no execution can be trapped where no continuation leaves. */
  lemma {:induction false} StructuralMeansNeverTrapped(nodes: seq<Node>, cfg: Cfg)
    requires CfgOf(nodes, cfg)
    ensures Structural(cfg) <==> NeverTrapped(nodes)
  {
    BuiltIsListed(nodes, cfg);
    if nodes == [] {
      EmptyIsStructural(cfg);
    } else {
      BuiltIsFaithful(nodes, cfg);
      if Structural(cfg) {
        forall r | Execution(nodes, r) ensures Finishable(nodes, r) {
          if r == [] {
            FinishFromStart(nodes, cfg);
          } else {
            FinishFrom(nodes, cfg, r);
          }
        }
      }
      if NeverTrapped(nodes) {
        forall b: nat | Reaches(cfg, cfg.entry, b) ensures CanExit(cfg, b) {
          FinishableBlockCanExit(nodes, cfg, b);
        }
      }
    }
  }

  /** The whole check: accepted exactly when no execution can get trapped. */
  method CheckTermination(nodes: seq<Node>) returns (ok: bool)
    ensures ok <==> NeverTrapped(nodes)
  {
    var builder := new Builder();
    var cfg := builder.Build(nodes);
    BuiltIsListed(nodes, cfg);
    ok := AllPathsTerminate(cfg);
    StructuralMeansNeverTrapped(nodes, cfg);
  }
}
