/** The part of compiler/src/graph/mod.rs:401-488 the whole-program checks read. */
module ProjectGraph {
  import opened Common

  type NodeId = int

  /** deps are the names in the REQUIRES clause. */
  datatype Behavior = Behavior(id: NodeId, name: string, deps: seq<string>, isPure: bool)

  /** nodes in the order in which the hash map happens to iterate; library contracts by name,
      with whether they guarantee purity. */
  datatype Graph = Graph(nodes: seq<Behavior>, library: map<string, bool>)

  /** Position of the first behavior of that name. */
  function FindNode(nodes: seq<Behavior>, name: string): (r: Option<nat>)
    ensures r.Some? ==> r.value < |nodes| && nodes[r.value].name == name
    ensures r.None? ==> forall i :: 0 <= i < |nodes| ==> nodes[i].name != name
    ensures r.Some? ==> forall i :: 0 <= i < r.value ==> nodes[i].name != name
  {
    FindFrom(nodes, name, 0)
  }

  function FindFrom(nodes: seq<Behavior>, name: string, k: nat): (r: Option<nat>)
    requires k <= |nodes|
    requires forall i :: 0 <= i < k ==> nodes[i].name != name
    ensures r.Some? ==> r.value < |nodes| && nodes[r.value].name == name
    ensures r.None? ==> forall i :: 0 <= i < |nodes| ==> nodes[i].name != name
    ensures r.Some? ==> forall i :: 0 <= i < r.value ==> nodes[i].name != name
    decreases |nodes| - k
  {
    if k == |nodes| then None
    else if nodes[k].name == name then Some(k)
    else FindFrom(nodes, name, k + 1)
  }

  ghost predicate Local(nodes: seq<Behavior>, name: string) { exists i :: 0 <= i < |nodes| && nodes[i].name == name }

  ghost predicate UniqueNames(nodes: seq<Behavior>) {
    forall i, j :: 0 <= i < j < |nodes| ==> nodes[i].name != nodes[j].name
  }

  /** Node ids are the keys of the hash map. */
  ghost predicate UniqueIds(nodes: seq<Behavior>) {
    forall i, j :: 0 <= i < j < |nodes| ==> nodes[i].id != nodes[j].id
  }
}
