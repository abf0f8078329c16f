/** Enumeration of simple paths, compiler/src/cfg.rs:128-159, and the cycle removal that
    makes them representative of all walks. */
module CfgPaths {
  import opened Common
  import opened CfgBuilder
  import opened CfgMeaning

  /** Block numbers are indices. */
  ghost predicate InRange(cfg: Cfg) {
    && cfg.entry < |cfg.blocks|
    && forall k, s :: 0 <= k < |cfg.blocks| && s in cfg.blocks[k].successors ==> s < |cfg.blocks|
  }

  /** A repetition-free walk from the entry to an exit. */
  ghost predicate SimplePath(cfg: Cfg, p: seq<nat>) { ExitWalk(cfg, p) && Distinct(p) }

  function Last(p: seq<nat>): nat
    requires p != []
  {
    p[|p| - 1]
  }

  // ----- a repetition-free sequence of block numbers is short -------------------------

  lemma {:induction false} RemoveOne(p: seq<nat>, i: nat, n: nat)
    requires Distinct(p) && i < |p| && p[i] == n && forall k :: 0 <= k < |p| ==> p[k] <= n
    ensures Distinct(p[..i] + p[i + 1..])
    ensures var q := p[..i] + p[i + 1..]; forall k :: 0 <= k < |q| ==> q[k] < n
  {
    var q := p[..i] + p[i + 1..];
    assert forall k :: 0 <= k < |q| ==> q[k] == if k < i then p[k] else p[k + 1];
  }

  lemma {:induction false} Pigeonhole(p: seq<nat>, n: nat)
    requires Distinct(p) && forall i :: 0 <= i < |p| ==> p[i] < n
    ensures |p| <= n
    decreases n
  {
    assert p != [] ==> p[0] < n;
    if p == [] {
    } else if i :| 0 <= i < |p| && p[i] == n - 1 {
      RemoveOne(p, i, n - 1);
      Pigeonhole(p[..i] + p[i + 1..], n - 1);
    } else {
      Pigeonhole(p, n - 1);
    }
  }

  // ----- the stack of all_paths ---------------------------------------------------------

  datatype Item = Item(current: nat, path: seq<nat>, visited: set<nat>)

  ghost predicate ItemOk(cfg: Cfg, it: Item) {
    && Walk(cfg, it.path) && it.current == Last(it.path)
    && (forall x :: x in it.visited <==> x in it.path[..|it.path| - 1])
    && Distinct(it.path[..|it.path| - 1])
  }

  ghost predicate Pending(stack: seq<Item>, p: seq<nat>) {
    exists i :: 0 <= i < |stack| && stack[i].path <= p
  }

  /** What the loop maintains: sound stack, sound result, nothing forgotten. */
  ghost predicate Progress(cfg: Cfg, stack: seq<Item>, paths: seq<seq<nat>>) {
    && (forall i :: 0 <= i < |stack| ==> ItemOk(cfg, stack[i]))
    && (forall p :: p in paths ==> SimplePath(cfg, p))
    && (forall p {:trigger SimplePath(cfg, p)} :: SimplePath(cfg, p) ==> p in paths || Pending(stack, p))
  }

  /** The items one expansion pushes. */
  function Children(it: Item, succs: seq<nat>): seq<Item> {
    seq(|succs|, i requires 0 <= i < |succs| =>
      Item(succs[i], it.path + [succs[i]], it.visited + {it.current}))
  }

  /** Bound on the loop iterations an item can cause when m more blocks fit on its path and
      every block has at most d successors. */
  function Weight(d: nat, m: nat): nat { if m == 0 then 1 else 1 + d * Weight(d, m - 1) }

  function ItemWeight(cfg: Cfg, d: nat, it: Item): nat {
    var room := |cfg.blocks| + 1 - |it.path|;
    Weight(d, if room < 0 then 0 else room)
  }

  function StackWeight(cfg: Cfg, d: nat, stack: seq<Item>): nat {
    if stack == [] then 0
    else StackWeight(cfg, d, stack[..|stack| - 1]) + ItemWeight(cfg, d, stack[|stack| - 1])
  }

  function MaxDegree(blocks: seq<Block>): (d: nat)
    ensures forall k :: 0 <= k < |blocks| ==> |blocks[k].successors| <= d
  {
    if blocks == [] then 0
    else
      var d, m := MaxDegree(blocks[..|blocks| - 1]), |blocks[|blocks| - 1].successors|;
      if m > d then m else d
  }

  lemma {:induction false} StackWeightConcat(cfg: Cfg, d: nat, a: seq<Item>, b: seq<Item>)
    ensures StackWeight(cfg, d, a + b) == StackWeight(cfg, d, a) + StackWeight(cfg, d, b)
  {
    if b == [] {
      assert a + b == a;
    } else {
      var n := |b| - 1;
      StackWeightConcat(cfg, d, a, b[..n]);
      assert (a + b)[..|a + b| - 1] == a + b[..n];
    }
  }

  lemma {:induction false} SameWeights(cfg: Cfg, d: nat, stack: seq<Item>, w: nat)
    requires forall i :: 0 <= i < |stack| ==> ItemWeight(cfg, d, stack[i]) == w
    ensures StackWeight(cfg, d, stack) == |stack| * w
  {
    if stack != [] {
      SameWeights(cfg, d, stack[..|stack| - 1], w);
      assert (|stack| - 1) * w + w == |stack| * w;
    }
  }

  lemma {:induction false} MulMonotone(a: nat, b: nat, c: nat)
    requires a <= b
    ensures a * c <= b * c
  {
  }

  /** Expanding an item lowers the weight, although the stack may grow. */
  lemma {:induction false} ExpansionIsLighter(cfg: Cfg, d: nat, it: Item, succs: seq<nat>)
    requires |it.path| <= |cfg.blocks| && |succs| <= d
    ensures StackWeight(cfg, d, Children(it, succs)) < ItemWeight(cfg, d, it)
  {
    var m := |cfg.blocks| + 1 - |it.path|;
    SameWeights(cfg, d, Children(it, succs), Weight(d, m - 1));
    MulMonotone(|succs|, d, Weight(d, m - 1));
  }

  // ----- one iteration -------------------------------------------------------------------

  lemma {:induction false} PathElements(p: seq<nat>)
    requires p != []
    ensures forall x :: x in p <==> x in p[..|p| - 1] || x == Last(p)
  {
    assert p == p[..|p| - 1] + [Last(p)];
  }

  /** An item whose block was visited before leads to no simple path. */
  lemma {:induction false} RepeatedItemIsDead(cfg: Cfg, it: Item, p: seq<nat>)
    requires ItemOk(cfg, it) && it.current in it.visited && it.path <= p
    ensures !Distinct(p)
  {
    var n := |it.path| - 1;
    var earlier := it.path[..n];
    assert it.current in earlier;
    var i :| 0 <= i < n && earlier[i] == it.current;
    assert p[i] == it.path[i] && p[n] == it.path[n];
  }

  lemma {:induction false} FreshItemIsDistinct(cfg: Cfg, it: Item)
    requires ItemOk(cfg, it) && it.current !in it.visited
    ensures Distinct(it.path) && |it.path| <= |cfg.blocks|
  {
    var n := |it.path| - 1;
    forall i, j | 0 <= i < j <= n ensures it.path[i] != it.path[j] {
      assert it.path[i] == it.path[..n][i];
      assert j < n ==> it.path[j] == it.path[..n][j];
    }
    Pigeonhole(it.path, |cfg.blocks|);
  }

  /** A walk goes no further than an exit. */
  lemma {:induction false} NothingAfterAnExit(cfg: Cfg, q: seq<nat>, p: seq<nat>)
    requires Walk(cfg, q) && Walk(cfg, p) && q <= p && IsExit(cfg.blocks[Last(q)])
    ensures p == q
  {
    assert |q| < |p| ==> Edge(cfg, p[|q| - 1], p[|q|]);
  }

  lemma {:induction false} ChildIsOk(cfg: Cfg, it: Item, s: nat)
    requires InRange(cfg) && ItemOk(cfg, it) && Distinct(it.path)
    requires !IsExit(cfg.blocks[it.current]) && s in cfg.blocks[it.current].successors
    ensures ItemOk(cfg, Item(s, it.path + [s], it.visited + {it.current}))
  {
    WalkExtends(cfg, it.path, s);
    PathElements(it.path);
    assert (it.path + [s])[..|it.path|] == it.path;
  }

  /** A simple path that goes on from an item goes on through one of its children. */
  lemma {:induction false} SomeChildGoesOn(cfg: Cfg, it: Item, p: seq<nat>)
    requires ItemOk(cfg, it) && it.path <= p && ExitWalk(cfg, p) && !IsExit(cfg.blocks[it.current])
    ensures Pending(Children(it, cfg.blocks[it.current].successors), p)
  {
    var n, succs := |it.path|, cfg.blocks[it.current].successors;
    assert n < |p|;
    assert Edge(cfg, p[n - 1], p[n]);
    var i :| 0 <= i < |succs| && succs[i] == p[n];
    assert it.path + [p[n]] <= p;
    assert Children(it, succs)[i].path == it.path + [p[n]];
  }

  lemma {:induction false} PendingSplits(a: seq<Item>, b: seq<Item>, p: seq<nat>)
    ensures Pending(a + b, p) <==> Pending(a, p) || Pending(b, p)
  {
    if i :| 0 <= i < |a| && a[i].path <= p {
      assert (a + b)[i].path <= p;
    }
    if i :| 0 <= i < |b| && b[i].path <= p {
      assert (a + b)[|a| + i].path <= p;
    }
  }

  lemma {:induction false} DropKeepsProgress(cfg: Cfg, rest: seq<Item>, it: Item, paths: seq<seq<nat>>)
    requires Progress(cfg, rest + [it], paths) && ItemOk(cfg, it) && it.current in it.visited
    ensures Progress(cfg, rest, paths)
  {
    forall i | 0 <= i < |rest| ensures ItemOk(cfg, rest[i]) {
      assert (rest + [it])[i] == rest[i];
    }
    forall p | SimplePath(cfg, p) ensures p in paths || Pending(rest, p) {
      PendingSplits(rest, [it], p);
      if it.path <= p {
        RepeatedItemIsDead(cfg, it, p);
      }
    }
  }

  lemma {:induction false} RecordKeepsProgress(cfg: Cfg, rest: seq<Item>, it: Item, paths: seq<seq<nat>>)
    requires Progress(cfg, rest + [it], paths) && ItemOk(cfg, it) && Distinct(it.path)
    requires IsExit(cfg.blocks[it.current])
    ensures Progress(cfg, rest, paths + [it.path])
  {
    forall i | 0 <= i < |rest| ensures ItemOk(cfg, rest[i]) {
      assert (rest + [it])[i] == rest[i];
    }
    forall p | SimplePath(cfg, p) ensures p in paths + [it.path] || Pending(rest, p) {
      PendingSplits(rest, [it], p);
      if it.path <= p {
        NothingAfterAnExit(cfg, it.path, p);
      }
    }
  }

  lemma {:induction false} ChildrenAreOk(cfg: Cfg, it: Item)
    requires InRange(cfg) && ItemOk(cfg, it) && Distinct(it.path) && !IsExit(cfg.blocks[it.current])
    ensures var c := Children(it, cfg.blocks[it.current].successors);
      forall i :: 0 <= i < |c| ==> ItemOk(cfg, c[i])
  {
    var succs := cfg.blocks[it.current].successors;
    var c := Children(it, succs);
    forall i | 0 <= i < |c| ensures ItemOk(cfg, c[i]) {
      assert succs[i] in succs;
      ChildIsOk(cfg, it, succs[i]);
    }
  }

  lemma {:induction false} ExpandKeepsProgress(cfg: Cfg, rest: seq<Item>, it: Item, c: seq<Item>, paths: seq<seq<nat>>)
    requires InRange(cfg) && Progress(cfg, rest + [it], paths) && ItemOk(cfg, it)
    requires !IsExit(cfg.blocks[it.current]) && c == Children(it, cfg.blocks[it.current].successors)
    requires forall i :: 0 <= i < |c| ==> ItemOk(cfg, c[i])
    ensures Progress(cfg, rest + c, paths)
  {
    forall i | 0 <= i < |rest| ensures ItemOk(cfg, rest[i]) {
      assert (rest + [it])[i] == rest[i];
    }
    forall p | SimplePath(cfg, p) ensures p in paths || Pending(rest + c, p) {
      PendingSplits(rest, [it], p);
      PendingSplits(rest, c, p);
      if it.path <= p {
        SomeChildGoesOn(cfg, it, p);
      }
    }
  }

  /** all_paths returns, as a set, exactly the simple paths, and terminates. */
  method AllPaths(cfg: Cfg) returns (paths: seq<seq<nat>>)
    requires InRange(cfg)
    ensures forall p :: p in paths <==> SimplePath(cfg, p)
  {
    paths := [];
    var stack: seq<Item> := [Item(cfg.entry, [cfg.entry], {})];
    ghost var d := MaxDegree(cfg.blocks);
    InitialProgress(cfg);
    while stack != []
      invariant Progress(cfg, stack, paths)
      decreases StackWeight(cfg, d, stack)
    {
      var it := stack[|stack| - 1];
      ghost var before := stack;
      stack := stack[..|stack| - 1];
      assert before == stack + [it] && ItemOk(cfg, it);
      if it.current in it.visited {
        DropKeepsProgress(cfg, stack, it, paths);
        ItemWeightPositive(cfg, d, it);
        continue;
      }
      FreshItemIsDistinct(cfg, it);
      var b := cfg.blocks[it.current];
      if b.successors == [] || b.terminator == Return {
        RecordKeepsProgress(cfg, stack, it, paths);
        ItemWeightPositive(cfg, d, it);
        paths := paths + [it.path];
      } else {
        ChildrenAreOk(cfg, it);
        ExpandKeepsProgress(cfg, stack, it, Children(it, b.successors), paths);
        ExpansionIsLighter(cfg, d, it, b.successors);
        StackWeightConcat(cfg, d, stack, Children(it, b.successors));
        stack := PushAll(stack, it, b.successors);
      }
    }
  }

  method PushAll(stack: seq<Item>, it: Item, succs: seq<nat>) returns (r: seq<Item>)
    ensures r == stack + Children(it, succs)
  {
    r := stack;
    for i := 0 to |succs|
      invariant r == stack + Children(it, succs)[..i]
    {
      var newPath := it.path + [succs[i]];
      r := r + [Item(succs[i], newPath, it.visited + {it.current})];
    }
  }

  lemma {:induction false} ItemWeightPositive(cfg: Cfg, d: nat, it: Item)
    ensures ItemWeight(cfg, d, it) > 0
  {
  }

  lemma {:induction false} InitialProgress(cfg: Cfg)
    requires InRange(cfg)
    ensures Progress(cfg, [Item(cfg.entry, [cfg.entry], {})], [])
  {
    var it := Item(cfg.entry, [cfg.entry], {});
    assert it.path[..0] == [];
    forall p | SimplePath(cfg, p) ensures Pending([it], p) {
      assert [it][0].path <= p;
    }
  }

  // ----- cycle removal ----------------------------------------------------------------------

  /** Cutting a cycle out of a walk leaves a walk with the same ends. */
  lemma {:induction false} CutCycle(cfg: Cfg, w: seq<nat>, i: nat, j: nat)
    requires Walk(cfg, w) && i < j < |w| && w[i] == w[j]
    ensures Walk(cfg, w[..i] + w[j..]) && Last(w[..i] + w[j..]) == Last(w)
    ensures forall x :: x in w[..i] + w[j..] ==> x in w
  {
    CutCycleWalks(cfg, w, i, j, w[..i] + w[j..]);
  }

  lemma {:induction false} CutCycleWalks(cfg: Cfg, w: seq<nat>, i: nat, j: nat, c: seq<nat>)
    requires Walk(cfg, w) && i < j < |w| && w[i] == w[j] && |c| == |w| - (j - i)
    requires forall k {:trigger c[k]} :: 0 <= k < |c| ==> c[k] == if k < i then w[k] else w[k - i + j]
    ensures Walk(cfg, c)
  {
    assert c[i] == w[i];
    forall k | 0 < k < |c| ensures Edge(cfg, c[k - 1], c[k]) {
      if k <= i {
        assert c[k] == w[k] && c[k - 1] == w[k - 1];
      } else {
        assert c[k] == w[k - i + j] && c[k - 1] == w[k - 1 - i + j];
      }
    }
  }

  /** Every walk to an exit, however often it loops, contains a simple path to that exit. */
  lemma {:induction false} WalkContainsSimplePath(cfg: Cfg, w: seq<nat>) returns (p: seq<nat>)
    requires ExitWalk(cfg, w)
    ensures SimplePath(cfg, p) && Last(p) == Last(w) && forall x :: x in p ==> x in w
    decreases |w|
  {
    if Distinct(w) {
      p := w;
    } else {
      var i, j :| 0 <= i < j < |w| && w[i] == w[j];
      CutCycle(cfg, w, i, j);
      p := WalkContainsSimplePath(cfg, w[..i] + w[j..]);
    }
  }
}
