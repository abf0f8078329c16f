/** The two readings of the writes_output guarantee: the credits of the path check,
    compiler/src/semantic/mod.rs:446-504, and the written outputs of the dataflow pass,
    compiler/src/cfg.rs:421-443. */
module WritesAgree {
  import opened Ast
  import opened WritesOutput
  import opened DataFlow
  import opened DataFlowPass

  // ----- what one statement does to the state ----------------------------------------------

  /** ALLOC makes a handle live and FREE ends that; STORE and SET write; assignments and STORE
      initialize; and no other statement does any of it. */
  lemma {:induction false} ApplyLaw(s: State, node: Node, x: string)
    ensures x in ApplyNode(s, node).live <==> node == Assignment(x, Alloc) || (x in s.live && node != Free(x))
    ensures x in ApplyNode(s, node).freed <==> x in s.freed || node == Free(x)
    ensures x in ApplyNode(s, node).written <==>
              x in s.written || (node.Set? && node == Set(x, node.value))
              || (node.Store? && node == Store(x, node.value, node.offset))
    ensures x in ApplyNode(s, node).initialized <==>
              x in s.initialized || (node.Assignment? && node == Assignment(x, node.expr))
              || (node.Store? && node == Store(x, node.value, node.offset))
  {
  }

  /** The output is bound by the statement or passed to the CALL in it. */
  ghost predicate Passes(node: Node, o: string) {
    || (node.CallNode? && (o in node.outputs || Var(o) in node.args))
    || (node.Assignment? && node.expr.Call? && Var(o) in node.expr.args)
  }

  ghost predicate PassedOn(nodes: seq<Node>, visits: seq<nat>, o: string) {
    exists i :: 0 <= i < |visits| && visits[i] < |nodes| && Passes(nodes[visits[i]], o)
  }

  /** On any execution: the path check sees a write exactly if the dataflow pass sees one or some
      CALL receives the output. */
  lemma {:induction false} WritesDiffer(nodes: seq<Node>, visits: seq<nat>, o: string)
    ensures !NeverWrites(nodes, visits, o) <==> Written(nodes, visits, o) || PassedOn(nodes, visits, o)
    ensures Written(nodes, visits, o) ==> !NeverWrites(nodes, visits, o)
  {
    forall i | 0 <= i < |visits| && visits[i] < |nodes|
      ensures WritesTo(nodes[visits[i]], o) <==> Stores(nodes, visits[i], o) || Passes(nodes[visits[i]], o)
    {
      WhatWrites(nodes[visits[i]], o);
    }
    if Written(nodes, visits, o) {
      var i :| 0 <= i < |visits| && Stores(nodes, visits[i], o);
      assert visits[i] < |nodes| && WritesTo(nodes[visits[i]], o);
    }
  }

  /** What the path check reports some execution misses in the sense of the dataflow pass too; if
      no CALL receives the output, the two are the same. */
  lemma {:induction false} ReportsDiffer(nodes: seq<Node>, o: string)
    ensures UnwrittenOnExecution(nodes, o) ==> MissedInExecution(nodes, o)
    ensures (forall k :: 0 <= k < |nodes| ==> !Passes(nodes[k], o)) ==>
              (UnwrittenOnExecution(nodes, o) <==> MissedInExecution(nodes, o))
  {
    forall r ensures !NeverWrites(nodes, r, o) <==> Written(nodes, r, o) || PassedOn(nodes, r, o) {
      WritesDiffer(nodes, r, o);
    }
  }
}
