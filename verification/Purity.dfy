/** Transitive purity, compiler/src/graph/validate.rs:188-232. */
module Purity {
  import opened Common
  import opened ProjectGraph

  /** What a name stands for guarantees purity; local behaviors shadow libraries. */
  function PureByName(graph: Graph, name: string): Option<bool> {
    var r := FindNode(graph.nodes, name);
    if r.Some? then Some(graph.nodes[r.value].isPure)
    else if name in graph.library then Some(graph.library[name])
    else None
  }

  /** Library contracts are leaves. */
  function DepsOf(graph: Graph, name: string): seq<string> {
    var r := FindNode(graph.nodes, name);
    if r.Some? then graph.nodes[r.value].deps else []
  }

  /** The name resolves, to something not pure. */
  predicate Impure(graph: Graph, name: string) { PureByName(graph, name) == Some(false) }

  /** Behavior i is the one that a REQUIRES of that name means. */
  ghost predicate Meant(graph: Graph, name: string, i: nat) {
    && i < |graph.nodes| && graph.nodes[i].name == name
    && forall j :: 0 <= j < i ==> graph.nodes[j].name != name
  }

  /** A name is impure exactly if the first local behavior of that name does not guarantee purity, or
      there is no such behavior and the library contract of that name does not. */
  lemma {:induction false} ImpureExactly(graph: Graph, name: string)
    ensures Impure(graph, name) <==>
              || (exists i: nat :: Meant(graph, name, i) && !graph.nodes[i].isPure)
              || ((forall i: nat :: !Meant(graph, name, i)) && name in graph.library && !graph.library[name])
  {
    var r := FindNode(graph.nodes, name);
    if r.Some? {
      assert Meant(graph, name, r.value);
    }
  }

  /** Its dependencies are those of that behavior; library contracts have none. */
  lemma {:induction false} DepsExactly(graph: Graph, name: string)
    ensures forall i: nat :: Meant(graph, name, i) ==> DepsOf(graph, name) == graph.nodes[i].deps
    ensures (forall i: nat :: !Meant(graph, name, i)) ==> DepsOf(graph, name) == []
  {
    var r := FindNode(graph.nodes, name);
    if r.Some? {
      assert Meant(graph, name, r.value);
    }
  }

  /** A dependency that resolves to nothing pure: the first local behavior of that name, or else the
      library contract. */
  ghost predicate RequiresImpure(graph: Graph, i: nat, d: string)
    requires i < |graph.nodes|
  {
    && d in graph.nodes[i].deps
    && (|| (exists k: nat :: Meant(graph, d, k) && !graph.nodes[k].isPure)
        || ((forall k: nat :: !Meant(graph, d, k)) && d in graph.library && !graph.library[d]))
  }

  ghost predicate DepPath(graph: Graph, deps: seq<string>, p: seq<string>) {
    && p != [] && p[0] in deps
    && forall i, j :: 0 <= i < |p| && 0 <= j < |p| && j == i + 1 ==> p[j] in DepsOf(graph, p[i])
  }

  /** d is in the REQUIRES closure of these dependencies. */
  ghost predicate InClosure(graph: Graph, deps: seq<string>, d: string) {
    exists p :: DepPath(graph, deps, p) && p[|p| - 1] == d
  }

  lemma {:induction false} DirectInClosure(graph: Graph, deps: seq<string>, d: string)
    requires d in deps
    ensures InClosure(graph, deps, d)
  {
    assert DepPath(graph, deps, [d]);
  }

  lemma {:induction false} ClosureStep(graph: Graph, deps: seq<string>, d: string, e: string)
    requires InClosure(graph, deps, d) && e in DepsOf(graph, d)
    ensures InClosure(graph, deps, e)
  {
    var p :| DepPath(graph, deps, p) && p[|p| - 1] == d;
    assert DepPath(graph, deps, p + [e]);
  }

  /** A closed set that contains the dependencies contains their closure. */
  lemma {:induction false} ClosureContained(graph: Graph, deps: seq<string>, s: set<string>, p: seq<string>)
    requires DepPath(graph, deps, p) && forall d :: d in deps ==> d in s
    requires forall d, e :: d in s && e in DepsOf(graph, d) ==> e in s
    ensures p[|p| - 1] in s
  {
    var n := |p| - 1;
    if n > 0 {
      assert DepPath(graph, deps, p[..n]);
      ClosureContained(graph, deps, s, p[..n]);
      assert p[n] in DepsOf(graph, p[n - 1]);
    }
  }

  /** Every name that occurs in a REQUIRES clause. */
  ghost function Mentioned(nodes: seq<Behavior>): (s: set<string>)
    ensures forall i, d :: 0 <= i < |nodes| && d in nodes[i].deps ==> d in s
  {
    if nodes == [] then {}
    else
      var n := |nodes| - 1;
      Mentioned(nodes[..n]) + set d | d in nodes[n].deps
  }

  lemma {:induction false} DepsAreMentioned(graph: Graph, d: string, e: string)
    requires e in DepsOf(graph, d)
    ensures e in Mentioned(graph.nodes)
  {
  }

  /** What the worklist loop keeps; every name it handles is in all. */
  ghost predicate Exploring(graph: Graph, deps: seq<string>, all: set<string>, visited: set<string>,
                            toCheck: seq<string>) {
    && visited <= all && (forall d :: d in toCheck ==> d in all)
    && (forall d :: d in deps ==> d in visited || d in toCheck)
    && (forall d :: d in toCheck ==> InClosure(graph, deps, d))
    && (forall d :: d in visited ==> !Impure(graph, d))
    && (forall d :: d in visited ==> DepsIn(graph, d, visited, toCheck))
  }

  ghost predicate DepsIn(graph: Graph, d: string, visited: set<string>, toCheck: seq<string>) {
    forall e :: e in DepsOf(graph, d) ==> e in visited || e in toCheck
  }

  lemma {:induction false} StartExploring(graph: Graph, deps: seq<string>, all: set<string>)
    requires forall d :: d in deps ==> d in all
    ensures Exploring(graph, deps, all, {}, deps)
  {
    forall d | d in deps ensures InClosure(graph, deps, d) {
      DirectInClosure(graph, deps, d);
    }
  }

  lemma {:induction false} SkipKeeps(graph: Graph, deps: seq<string>, all: set<string>, visited: set<string>,
                                     rest: seq<string>, name: string)
    requires Exploring(graph, deps, all, visited, rest + [name]) && name in visited
    ensures Exploring(graph, deps, all, visited, rest)
  {
    var toCheck := rest + [name];
    assert forall d :: d in toCheck <==> d in rest || d == name;
    assert forall d :: d in visited ==> DepsIn(graph, d, visited, toCheck);
  }

  lemma {:induction false} VisitKeeps(graph: Graph, deps: seq<string>, all: set<string>, visited: set<string>,
                                      rest: seq<string>, name: string)
    requires Exploring(graph, deps, all, visited, rest + [name]) && !Impure(graph, name)
    requires Mentioned(graph.nodes) <= all
    ensures Exploring(graph, deps, all, visited + {name}, rest + DepsOf(graph, name))
  {
    var toCheck := rest + [name];
    assert forall d :: d in toCheck <==> d in rest || d == name;
    assert forall d :: d in visited ==> DepsIn(graph, d, visited, toCheck);
    forall e | e in DepsOf(graph, name) ensures e in all && InClosure(graph, deps, e) {
      DepsAreMentioned(graph, name, e);
      ClosureStep(graph, deps, name, e);
    }
  }

  lemma {:induction false} DoneExploring(graph: Graph, deps: seq<string>, all: set<string>, visited: set<string>)
    requires Exploring(graph, deps, all, visited, [])
    ensures forall d :: InClosure(graph, deps, d) ==> !Impure(graph, d)
  {
    forall d | InClosure(graph, deps, d) ensures !Impure(graph, d) {
      var p :| DepPath(graph, deps, p) && p[|p| - 1] == d;
      assert forall x :: x in visited ==> DepsIn(graph, x, visited, []);
      ClosureContained(graph, deps, visited, p);
    }
  }

  /** Looks a dependency up; an undefined one is passed over. */
  method Lookup(graph: Graph, name: string) returns (isPure: bool, more: seq<string>)
    ensures isPure <==> !Impure(graph, name)
    ensures more == DepsOf(graph, name)
  {
    var found := FindNode(graph.nodes, name);
    if found.Some? {
      return graph.nodes[found.value].isPure, graph.nodes[found.value].deps;
    } else if name in graph.library {
      return graph.library[name], [];
    } else {
      return true, [];
    }
  }

  /** The worklist of one behavior: finds an impure behavior in the closure exactly when there
      is one. */
  method FindImpure(graph: Graph, deps: seq<string>) returns (r: Option<string>)
    ensures r.Some? ==> InClosure(graph, deps, r.value) && Impure(graph, r.value)
    ensures r.None? ==> forall d :: InClosure(graph, deps, d) ==> !Impure(graph, d)
  {
    var visited: set<string> := {};
    var toCheck := deps;
    ghost var all := Mentioned(graph.nodes) + set d | d in deps;
    StartExploring(graph, deps, all);
    while toCheck != []
      invariant Exploring(graph, deps, all, visited, toCheck)
      decreases all - visited, |toCheck|
    {
      ghost var before := toCheck;
      var name := toCheck[|toCheck| - 1];
      toCheck := toCheck[..|toCheck| - 1];
      assert before == toCheck + [name] && name in before;
      if name in visited {
        SkipKeeps(graph, deps, all, visited, toCheck, name);
        continue;
      }
      var isPure, more := Lookup(graph, name);
      if !isPure {
        return Some(name);
      }
      VisitKeeps(graph, deps, all, visited, toCheck, name);
      visited := visited + {name};
      toCheck := toCheck + more;
    }
    DoneExploring(graph, deps, all, visited);
    return None;
  }

  /** Declared pure although something impure is in its closure. */
  ghost predicate Violates(graph: Graph, b: Behavior) {
    b.isPure && exists d :: InClosure(graph, b.deps, d) && Impure(graph, d)
  }

  ghost function Violators(graph: Graph, n: nat): nat
    requires n <= |graph.nodes|
  {
    if n == 0 then 0 else Violators(graph, n - 1) + if Violates(graph, graph.nodes[n - 1]) then 1 else 0
  }

  datatype Violation = Violation(behavior: string, impureDep: string)

  /** An entry that is true of some behavior among the first n. */
  ghost predicate Justified(graph: Graph, n: nat, v: Violation) {
    exists i :: 0 <= i < n && i < |graph.nodes| && graph.nodes[i].name == v.behavior && graph.nodes[i].isPure
             && InClosure(graph, graph.nodes[i].deps, v.impureDep) && Impure(graph, v.impureDep)
  }

  ghost predicate Names(errors: seq<Violation>, name: string) {
    exists k :: 0 <= k < |errors| && errors[k].behavior == name
  }

  /** check_transitive_purity: one entry per violating behavior, each naming an impure
      behavior in its closure. */
  method CheckPurity(graph: Graph) returns (errors: seq<Violation>)
    ensures |errors| == Violators(graph, |graph.nodes|)
    ensures forall v :: v in errors ==> Justified(graph, |graph.nodes|, v)
    ensures forall i :: 0 <= i < |graph.nodes| && Violates(graph, graph.nodes[i]) ==> Names(errors, graph.nodes[i].name)
    ensures errors == [] <==>
              forall i, d :: 0 <= i < |graph.nodes| && graph.nodes[i].isPure ==> !RequiresImpure(graph, i, d)
  {
    errors := [];
    for n := 0 to |graph.nodes|
      invariant |errors| == Violators(graph, n)
      invariant forall v :: v in errors ==> Justified(graph, n, v)
      invariant forall i :: 0 <= i < n && Violates(graph, graph.nodes[i]) ==> Names(errors, graph.nodes[i].name)
    {
      var node := graph.nodes[n];
      if !node.isPure {
        continue;
      }
      var r := FindImpure(graph, node.deps);
      if r.Some? {
        ghost var before := errors;
        errors := errors + [Violation(node.name, r.value)];
        assert Justified(graph, n + 1, Violation(node.name, r.value));
        forall name | Names(before, name) ensures Names(errors, name) {
          var k :| 0 <= k < |before| && before[k].behavior == name;
          assert errors[k] == before[k];
        }
        assert errors[|before|].behavior == node.name;
      }
    }
    NoViolators(graph, |graph.nodes|);
    TransitiveIsLocal(graph);
    LocallyPureMeans(graph);
    assert forall i :: 0 <= i < |graph.nodes| ==> graph.nodes[i] in graph.nodes;
  }

  /** A local condition: no pure behavior directly requires an impure one. */
  ghost predicate LocallyPure(graph: Graph) {
    forall i, d :: 0 <= i < |graph.nodes| && graph.nodes[i].isPure && d in graph.nodes[i].deps ==> !Impure(graph, d)
  }

  lemma {:induction false} LocallyPureMeans(graph: Graph)
    ensures LocallyPure(graph) <==>
              forall i, d :: 0 <= i < |graph.nodes| && graph.nodes[i].isPure ==> !RequiresImpure(graph, i, d)
  {
    forall i, d | 0 <= i < |graph.nodes|
      ensures RequiresImpure(graph, i, d) <==> d in graph.nodes[i].deps && Impure(graph, d)
    {
      ImpureExactly(graph, d);
    }
  }

  lemma {:induction false} PurityPropagates(graph: Graph, b: Behavior, p: seq<string>)
    requires LocallyPure(graph) && b in graph.nodes && b.isPure && DepPath(graph, b.deps, p)
    ensures !Impure(graph, p[|p| - 1])
  {
    var n := |p| - 1;
    if n == 0 {
      var i :| 0 <= i < |graph.nodes| && graph.nodes[i] == b;
      assert p[0] in graph.nodes[i].deps;
    } else {
      assert DepPath(graph, b.deps, p[..n]);
      PurityPropagates(graph, b, p[..n]);
      assert p[n] in DepsOf(graph, p[n - 1]);
    }
  }

  /** The closure check passes for the whole graph exactly when the local condition holds. */
  lemma {:induction false} TransitiveIsLocal(graph: Graph)
    ensures (forall b :: b in graph.nodes ==> !Violates(graph, b)) <==> LocallyPure(graph)
  {
    if LocallyPure(graph) {
      forall b | b in graph.nodes ensures !Violates(graph, b) {
        if d :| b.isPure && InClosure(graph, b.deps, d) && Impure(graph, d) {
          var p :| DepPath(graph, b.deps, p) && p[|p| - 1] == d;
          PurityPropagates(graph, b, p);
        }
      }
    } else {
      var i, d :| 0 <= i < |graph.nodes| && graph.nodes[i].isPure && d in graph.nodes[i].deps && Impure(graph, d);
      DirectInClosure(graph, graph.nodes[i].deps, d);
      assert graph.nodes[i] in graph.nodes && Violates(graph, graph.nodes[i]);
    }
  }

  lemma {:induction false} NoViolators(graph: Graph, n: nat)
    requires n <= |graph.nodes|
    ensures Violators(graph, n) == 0 <==> forall i :: 0 <= i < n ==> !Violates(graph, graph.nodes[i])
  {
    if n > 0 {
      NoViolators(graph, n - 1);
    }
  }
}
