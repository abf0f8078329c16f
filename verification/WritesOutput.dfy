/** The writes_output check of validate_ownership_cfg, compiler/src/semantic/mod.rs:365-567:
    a check over finitely many simple paths decides a fact about all executions. */
module WritesOutput {
  import opened Ast
  import opened CfgBuilder
  import opened CfgMeaning
  import opened CfgPaths

  /** The statement writes o: by STORE or SET, by binding a result of a CALL to it, or by passing it
      to a CALL, as the callee may write through an output it receives. */
  predicate WritesTo(node: Node, o: string) {
    match node
    case Store(target, _, _) => target == o
    case Set(target, _) => target == o
    case CallNode(_, args, outputs) => o in outputs || Var(o) in args
    case Assignment(_, Call(_, args)) => Var(o) in args
    case _ => false
  }

  /** These statements write o, and no others do. */
  lemma {:induction false} WhatWrites(node: Node, o: string)
    ensures (exists value, offset :: node == Store(o, value, offset)) ==> WritesTo(node, o)
    ensures (exists value :: node == Set(o, value)) ==> WritesTo(node, o)
    ensures node.CallNode? && (o in node.outputs || Var(o) in node.args) ==> WritesTo(node, o)
    ensures node.Assignment? && node.expr.Call? && Var(o) in node.expr.args ==> WritesTo(node, o)
    ensures WritesTo(node, o) ==>
              || (node.Store? && node == Store(o, node.value, node.offset))
              || (node.Set? && node == Set(o, node.value))
              || (node.CallNode? && (o in node.outputs || Var(o) in node.args))
              || (node.Assignment? && node.expr.Call? && Var(o) in node.expr.args)
  {
  }

  /** No statement visited writes o. */
  ghost predicate NeverWrites(nodes: seq<Node>, visits: seq<nat>, o: string) {
    forall i :: 0 <= i < |visits| && visits[i] < |nodes| ==> !WritesTo(nodes[visits[i]], o)
  }

  // ----- the check ------------------------------------------------------------------------

  /** w is written and the outputs that satisfy p. */
  ghost predicate Credited(outputs: set<string>, written: set<string>, p: string -> bool, w: set<string>) {
    forall o :: o in w <==> o in written || (o in outputs && p(o))
  }

  method CreditArgs(args: seq<Expr>, outputs: set<string>, written: set<string>) returns (w: set<string>)
    ensures Credited(outputs, written, o => Var(o) in args, w)
  {
    w := written;
    for i := 0 to |args|
      invariant Credited(outputs, written, o => Var(o) in args[..i], w)
    {
      assert args[..i + 1] == args[..i] + [args[i]];
      if args[i].Var? && args[i].name in outputs {
        w := w + {args[i].name};
      }
    }
    assert args[..|args|] == args;
  }

  method CreditNames(names: seq<string>, outputs: set<string>, written: set<string>) returns (w: set<string>)
    ensures Credited(outputs, written, o => o in names, w)
  {
    w := written;
    for i := 0 to |names|
      invariant Credited(outputs, written, o => o in names[..i], w)
    {
      assert names[..i + 1] == names[..i] + [names[i]];
      if names[i] in outputs {
        w := w + {names[i]};
      }
    }
    assert names[..|names|] == names;
  }

  method CreditNode(node: Node, outputs: set<string>, written: set<string>) returns (w: set<string>)
    ensures Credited(outputs, written, o => WritesTo(node, o), w)
  {
    w := written;
    if node.Store? && node.target in outputs {
      w := w + {node.target};
    }
    if node.Set? && node.target in outputs {
      w := w + {node.target};
    }
    if node.CallNode? {
      w := CreditArgs(node.args, outputs, w);
      w := CreditNames(node.outputs, outputs, w);
    }
    if node.Assignment? && node.expr.Call? {
      w := CreditArgs(node.expr.args, outputs, w);
    }
  }

  /** Exactly the outputs that some visited statement is credited with. */
  ghost predicate WrittenOn(nodes: seq<Node>, visits: seq<nat>, outputs: set<string>, w: set<string>) {
    w <= outputs && forall o :: o in outputs ==> (o !in w <==> NeverWrites(nodes, visits, o))
  }

  method CreditBlock(nodes: seq<Node>, statements: seq<nat>, ghost before: seq<nat>,
                     outputs: set<string>, written: set<string>) returns (w: set<string>)
    requires WrittenOn(nodes, before, outputs, written)
    ensures WrittenOn(nodes, before + statements, outputs, w)
  {
    w := written;
    assert before + statements[..0] == before;
    for i := 0 to |statements|
      invariant WrittenOn(nodes, before + statements[..i], outputs, w)
    {
      ghost var seen := before + statements[..i];
      assert before + statements[..i + 1] == seen + [statements[i]];
      ghost var credited := w;
      if statements[i] < |nodes| {
        w := CreditNode(nodes[statements[i]], outputs, w);
      }
      CreditExtends(nodes, seen, statements[i], outputs, credited, w);
    }
    assert statements[..|statements|] == statements;
  }

  lemma {:induction false} CreditExtends(nodes: seq<Node>, seen: seq<nat>, i: nat, outputs: set<string>,
                                         w: set<string>, after: set<string>)
    requires WrittenOn(nodes, seen, outputs, w)
    requires if i < |nodes| then Credited(outputs, w, o => WritesTo(nodes[i], o), after) else after == w
    ensures WrittenOn(nodes, seen + [i], outputs, after)
  {
    forall o | o in outputs
      ensures NeverWrites(nodes, seen + [i], o) <==>
                NeverWrites(nodes, seen, o) && (i < |nodes| ==> !WritesTo(nodes[i], o))
    {
      NeverWritesSplits(nodes, seen, i, o);
    }
  }

  lemma {:induction false} NeverWritesSplits(nodes: seq<Node>, seen: seq<nat>, i: nat, o: string)
    ensures NeverWrites(nodes, seen + [i], o) <==>
              NeverWrites(nodes, seen, o) && (i < |nodes| ==> !WritesTo(nodes[i], o))
  {
    var all := seen + [i];
    assert forall k :: 0 <= k < |seen| ==> all[k] == seen[k];
    assert all[|seen|] == i;
  }

  method CreditPath(nodes: seq<Node>, cfg: Cfg, path: seq<nat>, outputs: set<string>) returns (w: set<string>)
    requires forall i :: 0 <= i < |path| ==> path[i] < |cfg.blocks|
    ensures WrittenOn(nodes, Visits(cfg, path), outputs, w)
  {
    w := {};
    for i := 0 to |path|
      invariant WrittenOn(nodes, Visits(cfg, path[..i]), outputs, w)
    {
      assert path[..i + 1][..i] == path[..i];
      w := CreditBlock(nodes, cfg.blocks[path[i]].statements, Visits(cfg, path[..i]), outputs, w);
    }
    assert path[..|path|] == path;
  }

  /** The outputs reported as not written on all paths. */
  method UnwrittenOutputs(nodes: seq<Node>, cfg: Cfg, outputs: set<string>, guaranteed: bool)
    returns (unwritten: set<string>)
    requires InRange(cfg)
    ensures unwritten <= outputs && (!guaranteed ==> unwritten == {})
    ensures guaranteed ==> forall o :: o in outputs ==>
              (o in unwritten <==> UnwrittenOnSimplePath(nodes, cfg, o))
  {
    var paths := AllPaths(cfg);
    unwritten := {};
    assert forall i :: 0 <= i < |paths| ==> paths[i] in paths;
    for i := 0 to |paths|
      invariant unwritten <= outputs && (!guaranteed ==> unwritten == {})
      invariant guaranteed ==> forall o :: o in outputs ==>
        (o in unwritten <==> exists k :: 0 <= k < i && NeverWrites(nodes, Visits(cfg, paths[k]), o))
    {
      assert paths[i] in paths;
      var written := CreditPath(nodes, cfg, paths[i], outputs);
      if guaranteed {
        unwritten := unwritten + (outputs - written);
      }
    }
  }

  // ----- exactness ----------------------------------------------------------------------------

  lemma {:induction false} VisitsOfBlock(cfg: Cfg, w: seq<nat>, k: nat, i: nat)
    requires forall j :: 0 <= j < |w| ==> w[j] < |cfg.blocks|
    requires k < |w| && i in cfg.blocks[w[k]].statements
    ensures i in Visits(cfg, w)
  {
    if k < |w| - 1 {
      VisitsOfBlock(cfg, w[..|w| - 1], k, i);
    }
  }

  lemma {:induction false} VisitedInSomeBlock(cfg: Cfg, w: seq<nat>, i: nat) returns (k: nat)
    requires forall j :: 0 <= j < |w| ==> w[j] < |cfg.blocks|
    requires i in Visits(cfg, w)
    ensures k < |w| && i in cfg.blocks[w[k]].statements
  {
    var n := |w| - 1;
    if i in cfg.blocks[w[n]].statements {
      k := n;
    } else {
      k := VisitedInSomeBlock(cfg, w[..n], i);
    }
  }

  lemma {:induction false} FewerBlocksWriteNoMore(nodes: seq<Node>, cfg: Cfg, w: seq<nat>, p: seq<nat>, o: string)
    requires Walk(cfg, w) && Walk(cfg, p) && forall x :: x in p ==> x in w
    requires NeverWrites(nodes, Visits(cfg, w), o)
    ensures NeverWrites(nodes, Visits(cfg, p), o)
  {
    var v := Visits(cfg, p);
    forall i | 0 <= i < |v| && v[i] < |nodes| ensures !WritesTo(nodes[v[i]], o) {
      var k := VisitedInSomeBlock(cfg, p, v[i]);
      assert p[k] in w;
      var m :| 0 <= m < |w| && w[m] == p[k];
      VisitsOfBlock(cfg, w, m, v[i]);
    }
  }

  ghost predicate UnwrittenOnSimplePath(nodes: seq<Node>, cfg: Cfg, o: string) {
    exists p :: SimplePath(cfg, p) && NeverWrites(nodes, Visits(cfg, p), o)
  }

  ghost predicate UnwrittenOnExecution(nodes: seq<Node>, o: string) {
    exists r :: CompleteExecution(nodes, r) && NeverWrites(nodes, r, o)
  }

  /** Some simple path misses o exactly when some complete execution, looping as often as it
      likes, never writes o. */
  lemma {:induction false} SimplePathsDecideExecutions(nodes: seq<Node>, cfg: Cfg, o: string)
    requires CfgOf(nodes, cfg)
    ensures UnwrittenOnSimplePath(nodes, cfg, o) <==> UnwrittenOnExecution(nodes, o)
  {
    if p :| SimplePath(cfg, p) && NeverWrites(nodes, Visits(cfg, p), o) {
      CompleteExecutionsAreExitWalks(nodes, cfg, Visits(cfg, p));
    }
    if r :| CompleteExecution(nodes, r) && NeverWrites(nodes, r, o) {
      CompleteExecutionsAreExitWalks(nodes, cfg, r);
      var w :| ExitWalk(cfg, w) && Visits(cfg, w) == r;
      var p := WalkContainsSimplePath(cfg, w);
      FewerBlocksWriteNoMore(nodes, cfg, w, p, o);
    }
  }

  lemma {:induction false} BuiltInRange(nodes: seq<Node>, cfg: Cfg)
    requires CfgOf(nodes, cfg)
    ensures InRange(cfg)
  {
    if nodes == [] {
      EmptyProgram(cfg);
      assert SameBody(ScanAll(nodes).blocks[0], cfg.blocks[0]);
    } else {
      BuiltIsFaithful(nodes, cfg);
      forall k, s | 0 <= k < |cfg.blocks| && s in cfg.blocks[k].successors ensures s < |cfg.blocks| {
        assert Flows(nodes, cfg, k);
      }
    }
  }

  /** The whole check: an output is reported exactly when the guarantee is declared and some
      complete execution of the behavior never writes it. */
  method CheckWritesOutput(nodes: seq<Node>, outputs: set<string>, guaranteed: bool)
    returns (reported: set<string>)
    ensures forall o :: o in reported <==> guaranteed && o in outputs && UnwrittenOnExecution(nodes, o)
  {
    var builder := new Builder();
    var cfg := builder.Build(nodes);
    BuiltInRange(nodes, cfg);
    reported := UnwrittenOutputs(nodes, cfg, outputs, guaranteed);
    forall o ensures UnwrittenOnSimplePath(nodes, cfg, o) <==> UnwrittenOnExecution(nodes, o) {
      SimplePathsDecideExecutions(nodes, cfg, o);
    }
  }
}
