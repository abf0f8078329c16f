/** The control-flow-graph builder of compiler/src/cfg.rs:227-376. */
module CfgBuilder {
  import opened Common
  import opened Ast

  datatype Terminator =
    | Fallthrough
    | JumpTo(to: string)
    | BranchTo(onTrue: string, onFalse: string)
    | Return

  datatype Block = Block(
    id: nat, statements: seq<nat>, name: Option<string>,
    successors: seq<nat>, predecessors: seq<nat>, terminator: Terminator)

  datatype Cfg = Cfg(blocks: seq<Block>, entry: nat, exits: seq<nat>, labelToBlock: map<string, nat>)

  // ----- what the blocks of a statement list are --------------------------------

  predicate Transfers(node: Node) { node.Jump? || node.Branch? }

  /** A block starts or the list ends here: at a label, after a jump or a branch. */
  predicate Boundary(nodes: seq<Node>, i: nat)
    requires i <= |nodes|
  {
    i == 0 || i == |nodes| || nodes[i].Label? || Transfers(nodes[i - 1])
  }

  function Span(lo: nat, hi: nat): (s: seq<nat>)
    requires lo <= hi
    ensures |s| == hi - lo && forall i :: 0 <= i < |s| ==> s[i] == lo + i
  {
    seq(hi - lo, i requires 0 <= i < hi - lo => lo + i)
  }

  /** How a block that ends before statement hi leaves. */
  function Leaves(nodes: seq<Node>, hi: nat): Terminator
    requires 0 < hi <= |nodes|
  {
    match nodes[hi - 1]
    case Jump(to) => JumpTo(to)
    case Branch(_, t, f) => BranchTo(t, f)
    case _ => if hi == |nodes| then Return else Fallthrough
  }

  /** The last LABEL statement of that name among the first n, as later ones overwrite
      earlier ones in the label table. */
  function LastLabel(nodes: seq<Node>, n: nat, name: string): (r: Option<nat>)
    requires n <= |nodes|
    ensures r.Some? ==> r.value < n && nodes[r.value] == Label(name)
    ensures r.None? ==> forall i :: 0 <= i < n ==> nodes[i] != Label(name)
  {
    if n == 0 then None
    else if nodes[n - 1] == Label(name) then Some(n - 1)
    else LastLabel(nodes, n - 1, name)
  }

  /** First statement and end of a block. */
  function Lo(b: Block): nat { if b.statements == [] then 0 else b.statements[0] }
  function Hi(b: Block): nat { Lo(b) + |b.statements| }

  ghost predicate BlockOk(nodes: seq<Node>, b: Block) {
    && Lo(b) < Hi(b) <= |nodes| && b.statements == Span(Lo(b), Hi(b))
    && Boundary(nodes, Lo(b)) && (forall i :: Lo(b) < i < Hi(b) ==> !Boundary(nodes, i))
    && b.terminator == Leaves(nodes, Hi(b))
    && Boundary(nodes, Hi(b))
  }

  function End(blocks: seq<Block>): nat { if blocks == [] then 0 else Hi(blocks[|blocks| - 1]) }

  /** The blocks cut the statements [0, End) into maximal straight-line pieces, in order. */
  ghost predicate Cut(nodes: seq<Node>, blocks: seq<Block>) {
    blocks != [] ==>
      var k := |blocks| - 1;
      && Cut(nodes, blocks[..k])
      && BlockOk(nodes, blocks[k]) && blocks[k].id == k && Lo(blocks[k]) == End(blocks[..k])
  }

  /** Start of a finished block, or of the block under construction. */
  function StartOf(blocks: seq<Block>, k: nat): nat {
    if k < |blocks| then Lo(blocks[k]) else End(blocks)
  }

  /** The table sends each label to the block that starts at its last occurrence. */
  ghost predicate LabelsOk(nodes: seq<Node>, n: nat, blocks: seq<Block>, labels: map<string, nat>)
    requires n <= |nodes|
  {
    forall l {:trigger l in labels} {:trigger LastLabel(nodes, n, l)} ::
      && (l in labels <==> LastLabel(nodes, n, l).Some?)
      && (l in labels ==>
            labels[l] <= |blocks| && StartOf(blocks, labels[l]) == LastLabel(nodes, n, l).value)
  }

  // ----- the first pass as a fold -----------------------------------------------

  const NewBlock := Block(0, [], None, [], [], Fallthrough)

  /** The fields of CFGBuilder; next_id always is the number of finished blocks. */
  datatype Scan = Scan(blocks: seq<Block>, labels: map<string, nat>, current: Block)

  const Start := Scan([], map[], NewBlock)

  function Finish(s: Scan, terminator: Terminator): Scan {
    Scan(s.blocks + [s.current.(id := |s.blocks|, terminator := terminator)],
         if s.current.name.Some? then s.labels[s.current.name.value := |s.blocks|] else s.labels,
         NewBlock)
  }

  function Push(s: Scan, idx: nat): Scan {
    s.(current := s.current.(statements := s.current.statements + [idx]))
  }

  function Named(s: Scan, name: string): Scan {
    s.(current := s.current.(name := Some(name)), labels := s.labels[name := |s.blocks|])
  }

  function ScanNode(s: Scan, node: Node, idx: nat): Scan {
    match node
    case Label(name) =>
      Push(Named(if s.current.statements == [] then s else Finish(s, Fallthrough), name), idx)
    case Jump(to) => Finish(Push(s, idx), JumpTo(to))
    case Branch(_, t, f) => Finish(Push(s, idx), BranchTo(t, f))
    case _ => Push(s, idx)
  }

  function ScanFirst(nodes: seq<Node>, n: nat): Scan
    requires n <= |nodes|
  {
    if n == 0 then Start else ScanNode(ScanFirst(nodes, n - 1), nodes[n - 1], n - 1)
  }

  function ScanAll(nodes: seq<Node>): Scan {
    var s := ScanFirst(nodes, |nodes|);
    if s.current.statements != [] || s.blocks == [] then Finish(s, Return) else s
  }

  // ----- what the first pass computes -------------------------------------------

  ghost predicate Unconnected(blocks: seq<Block>) {
    forall k {:trigger blocks[k]} :: 0 <= k < |blocks| ==>
      blocks[k].successors == [] && blocks[k].predecessors == []
  }

  /** A block holding statements [lo, idx), only the first of which is a boundary. */
  ghost predicate Partial(nodes: seq<Node>, b: Block, lo: nat, idx: nat) {
    && lo <= idx <= |nodes| && b.statements == Span(lo, idx)
    && Boundary(nodes, lo) && (forall i :: lo < i < idx ==> !Boundary(nodes, i))
    && b.successors == [] && b.predecessors == []
    && b.name == if lo < idx && nodes[lo].Label? then Some(nodes[lo].name) else None
  }

  ghost predicate Scanned(nodes: seq<Node>, s: Scan, idx: nat) {
    && Cut(nodes, s.blocks) && Unconnected(s.blocks)
    && Partial(nodes, s.current, End(s.blocks), idx)
  }

  lemma {:induction false} CutExtends(nodes: seq<Node>, blocks: seq<Block>, b: Block)
    requires Cut(nodes, blocks) && BlockOk(nodes, b) && b.id == |blocks| && Lo(b) == End(blocks)
    ensures Cut(nodes, blocks + [b]) && End(blocks + [b]) == Hi(b)
  {
    assert (blocks + [b])[..|blocks|] == blocks;
  }

  lemma {:induction false} FinishedBlockOk(nodes: seq<Node>, b: Block, lo: nat, idx: nat)
    requires Partial(nodes, b, lo, idx) && lo < idx && Boundary(nodes, idx)
    requires b.terminator == Leaves(nodes, idx)
    ensures BlockOk(nodes, b) && Lo(b) == lo && Hi(b) == idx
  {
  }

  lemma {:induction false} FreshBlockPartial(nodes: seq<Node>, idx: nat)
    requires idx <= |nodes| && Boundary(nodes, idx)
    ensures Partial(nodes, NewBlock, idx, idx)
  {
  }

  lemma {:induction false} FinishCuts(nodes: seq<Node>, s: Scan, idx: nat)
    requires Scanned(nodes, s, idx) && End(s.blocks) < idx && Boundary(nodes, idx)
    ensures Scanned(nodes, Finish(s, Leaves(nodes, idx)), idx)
    ensures End(Finish(s, Leaves(nodes, idx)).blocks) == idx
  {
    var b := s.current.(id := |s.blocks|, terminator := Leaves(nodes, idx));
    FinishedBlockOk(nodes, b, End(s.blocks), idx);
    CutExtends(nodes, s.blocks, b);
    FreshBlockPartial(nodes, idx);
  }

  /** One more statement in the block under construction. */
  lemma {:induction false} PushExtends(nodes: seq<Node>, s: Scan, idx: nat)
    requires Scanned(nodes, s, idx) && idx < |nodes| && !nodes[idx].Label?
    requires End(s.blocks) < idx ==> !Transfers(nodes[idx - 1])
    ensures Scanned(nodes, Push(s, idx), idx + 1)
  {
    assert Span(End(s.blocks), idx) + [idx] == Span(End(s.blocks), idx + 1);
  }

  lemma {:induction false} NamedExtends(nodes: seq<Node>, s: Scan, idx: nat)
    requires Scanned(nodes, s, idx) && idx < |nodes| && End(s.blocks) == idx && nodes[idx].Label?
    ensures Scanned(nodes, Push(Named(s, nodes[idx].name), idx), idx + 1)
  {
    assert Span(idx, idx) + [idx] == Span(idx, idx + 1);
  }

  /** What holds between two statements of the first pass. */
  ghost predicate Between(nodes: seq<Node>, s: Scan, idx: nat) {
    && Scanned(nodes, s, idx)
    && (End(s.blocks) < idx ==> !Transfers(nodes[idx - 1]))
  }

  lemma {:induction false} LabelKeeps(nodes: seq<Node>, s: Scan, idx: nat)
    requires idx < |nodes| && Between(nodes, s, idx) && nodes[idx].Label?
    ensures Between(nodes, ScanNode(s, nodes[idx], idx), idx + 1)
  {
    if s.current.statements != [] {
      FinishCuts(nodes, s, idx);
      NamedExtends(nodes, Finish(s, Fallthrough), idx);
    } else {
      NamedExtends(nodes, s, idx);
    }
  }

  lemma {:induction false} TransferKeeps(nodes: seq<Node>, s: Scan, idx: nat)
    requires idx < |nodes| && Between(nodes, s, idx) && Transfers(nodes[idx])
    ensures Between(nodes, ScanNode(s, nodes[idx], idx), idx + 1)
  {
    PushExtends(nodes, s, idx);
    assert ScanNode(s, nodes[idx], idx) == Finish(Push(s, idx), Leaves(nodes, idx + 1));
    FinishCuts(nodes, Push(s, idx), idx + 1);
  }

  lemma {:induction false} ScanNodeKeeps(nodes: seq<Node>, s: Scan, idx: nat, n: nat)
    requires idx < |nodes| && n == idx + 1 && Between(nodes, s, idx)
    ensures Between(nodes, ScanNode(s, nodes[idx], idx), n)
  {
    if nodes[idx].Label? {
      LabelKeeps(nodes, s, idx);
    } else if Transfers(nodes[idx]) {
      TransferKeeps(nodes, s, idx);
    } else {
      PushExtends(nodes, s, idx);
    }
  }

  lemma {:induction false} ScanFirstKeeps(nodes: seq<Node>, n: nat)
    requires n <= |nodes|
    ensures Between(nodes, ScanFirst(nodes, n), n)
  {
    var inv: (Scan, nat) -> bool := (s: Scan, i: nat) => Between(nodes, s, i);
    FreshBlockPartial(nodes, 0);
    forall s, i: nat, j: nat | i < |nodes| && j == i + 1 && inv(s, i) ensures inv(ScanNode(s, nodes[i], i), j) {
      ScanNodeKeeps(nodes, s, i, j);
    }
    ScanInduction(nodes, inv, n);
  }

  /** What holds at the start and is kept by every statement holds after n statements. */
  lemma {:induction false} ScanInduction(nodes: seq<Node>, inv: (Scan, nat) -> bool, n: nat)
    requires n <= |nodes| && inv(Start, 0)
    requires forall s, i: nat, j: nat {:trigger inv(s, i), inv(ScanNode(s, nodes[i], i), j)} ::
      i < |nodes| && j == i + 1 && inv(s, i) ==> inv(ScanNode(s, nodes[i], i), j)
    ensures inv(ScanFirst(nodes, n), n)
    decreases n
  {
    if n > 0 {
      ScanInduction(nodes, inv, n - 1);
      assert inv(ScanNode(ScanFirst(nodes, n - 1), nodes[n - 1], n - 1), n);
    }
  }

  /** The finished blocks cut the whole list. */
  lemma {:induction false} ScanAllCuts(nodes: seq<Node>)
    requires nodes != []
    ensures Cut(nodes, ScanAll(nodes).blocks) && End(ScanAll(nodes).blocks) == |nodes|
    ensures Unconnected(ScanAll(nodes).blocks) && ScanAll(nodes).blocks != []
  {
    var s := ScanFirst(nodes, |nodes|);
    ScanFirstKeeps(nodes, |nodes|);
    if End(s.blocks) < |nodes| {
      assert ScanAll(nodes) == Finish(s, Leaves(nodes, |nodes|));
      FinishCuts(nodes, s, |nodes|);
    } else {
      assert ScanAll(nodes) == s;
    }
  }

  // ----- the label table ----------------------------------------------------------

  lemma {:induction false} NoLabelSince(nodes: seq<Node>, lo: nat, idx: nat, l: string)
    requires lo < idx <= |nodes| && nodes[lo] == Label(l)
    requires forall i :: lo < i < idx ==> !Boundary(nodes, i)
    ensures LastLabel(nodes, idx, l) == Some(lo)
  {
    if idx > lo + 1 {
      assert !Boundary(nodes, idx - 1);
      NoLabelSince(nodes, lo, idx - 1, l);
    }
  }

  lemma {:induction false} StartOfExtends(blocks: seq<Block>, b: Block, k: nat)
    requires k <= |blocks| && Lo(b) == End(blocks)
    ensures StartOf(blocks + [b], k) == StartOf(blocks, k)
  {
  }

  /** Registering the label once more on finishing does no harm. */
  lemma {:induction false} FinishLabels(nodes: seq<Node>, s: Scan, t: Terminator, idx: nat)
    requires Partial(nodes, s.current, End(s.blocks), idx) && End(s.blocks) < idx
    requires LabelsOk(nodes, idx, s.blocks, s.labels)
    ensures LabelsOk(nodes, idx, Finish(s, t).blocks, Finish(s, t).labels)
  {
    var s' := Finish(s, t);
    var b := s'.blocks[|s.blocks|];
    assert Lo(b) == End(s.blocks);
    if s.current.name.Some? {
      NoLabelSince(nodes, End(s.blocks), idx, s.current.name.value);
    }
    forall l ensures
      && (l in s'.labels <==> LastLabel(nodes, idx, l).Some?)
      && (l in s'.labels ==>
            s'.labels[l] <= |s'.blocks| && StartOf(s'.blocks, s'.labels[l]) == LastLabel(nodes, idx, l).value)
    {
      assert l in s.labels <==> LastLabel(nodes, idx, l).Some?;
      StartOfExtends(s.blocks, b, |s.blocks|);
      if l in s.labels {
        StartOfExtends(s.blocks, b, s.labels[l]);
      }
    }
  }

  lemma {:induction false} PushLabels(nodes: seq<Node>, s: Scan, idx: nat)
    requires idx < |nodes| && !nodes[idx].Label? && LabelsOk(nodes, idx, s.blocks, s.labels)
    ensures LabelsOk(nodes, idx + 1, s.blocks, s.labels)
  {
    forall l ensures LastLabel(nodes, idx + 1, l) == LastLabel(nodes, idx, l) {
    }
  }

  lemma {:induction false} NamedLabels(nodes: seq<Node>, s: Scan, idx: nat)
    requires idx < |nodes| && nodes[idx].Label? && LabelsOk(nodes, idx, s.blocks, s.labels)
    requires End(s.blocks) == idx
    ensures LabelsOk(nodes, idx + 1, s.blocks, Named(s, nodes[idx].name).labels)
  {
    forall l ensures LastLabel(nodes, idx + 1, l)
                  == if nodes[idx] == Label(l) then Some(idx) else LastLabel(nodes, idx, l) {
    }
  }

  lemma {:induction false} LabelLabels(nodes: seq<Node>, s: Scan, idx: nat)
    requires idx < |nodes| && Between(nodes, s, idx) && nodes[idx].Label?
    requires LabelsOk(nodes, idx, s.blocks, s.labels)
    ensures var s' := ScanNode(s, nodes[idx], idx); LabelsOk(nodes, idx + 1, s'.blocks, s'.labels)
  {
    if s.current.statements != [] {
      FinishLabels(nodes, s, Fallthrough, idx);
      FinishCuts(nodes, s, idx);
      NamedLabels(nodes, Finish(s, Fallthrough), idx);
    } else {
      NamedLabels(nodes, s, idx);
    }
  }

  lemma {:induction false} TransferLabels(nodes: seq<Node>, s: Scan, idx: nat)
    requires idx < |nodes| && Partial(nodes, Push(s, idx).current, End(s.blocks), idx + 1)
    requires Transfers(nodes[idx]) && LabelsOk(nodes, idx, s.blocks, s.labels)
    ensures var s' := ScanNode(s, nodes[idx], idx); LabelsOk(nodes, idx + 1, s'.blocks, s'.labels)
  {
    assert ScanNode(s, nodes[idx], idx) == Finish(Push(s, idx), Leaves(nodes, idx + 1));
    PushLabels(nodes, s, idx);
    FinishLabels(nodes, Push(s, idx), Leaves(nodes, idx + 1), idx + 1);
  }

  lemma {:induction false} ScanNodeLabels(nodes: seq<Node>, s: Scan, idx: nat)
    requires idx < |nodes| && Between(nodes, s, idx) && LabelsOk(nodes, idx, s.blocks, s.labels)
    ensures var s' := ScanNode(s, nodes[idx], idx); LabelsOk(nodes, idx + 1, s'.blocks, s'.labels)
  {
    if nodes[idx].Label? {
      LabelLabels(nodes, s, idx);
    } else if Transfers(nodes[idx]) {
      PushExtends(nodes, s, idx);
      TransferLabels(nodes, s, idx);
    } else {
      PushLabels(nodes, s, idx);
    }
  }

  ghost predicate Labelled(nodes: seq<Node>, s: Scan, idx: nat) {
    idx <= |nodes| && LabelsOk(nodes, idx, s.blocks, s.labels)
  }

  lemma {:induction false} ScanNodeLabelled(nodes: seq<Node>, s: Scan, n: nat, s': Scan)
    requires 0 < n <= |nodes| && Between(nodes, s, n - 1) && Labelled(nodes, s, n - 1)
    requires s' == ScanNode(s, nodes[n - 1], n - 1)
    ensures Labelled(nodes, s', n)
  {
    ScanNodeLabels(nodes, s, n - 1);
  }

  lemma {:induction false} ScanFirstLabels(nodes: seq<Node>, n: nat)
    requires n <= |nodes|
    ensures Labelled(nodes, ScanFirst(nodes, n), n)
  {
    if n == 0 {
      assert Labelled(nodes, Start, 0);
    } else {
      ScanFirstLabels(nodes, n - 1);
      ScanFirstKeeps(nodes, n - 1);
      ScanNodeLabelled(nodes, ScanFirst(nodes, n - 1), n, ScanFirst(nodes, n));
    }
  }

  /** Every label that occurs leads to the block its last occurrence starts. */
  lemma {:induction false} ScanAllLabels(nodes: seq<Node>)
    requires nodes != []
    ensures LabelsOk(nodes, |nodes|, ScanAll(nodes).blocks, ScanAll(nodes).labels)
  {
    var s := ScanFirst(nodes, |nodes|);
    ScanFirstLabels(nodes, |nodes|);
    ScanFirstKeeps(nodes, |nodes|);
    if End(s.blocks) < |nodes| {
      FinishLabels(nodes, s, Return, |nodes|);
    } else {
      assert ScanAll(nodes) == s;
    }
  }

  // ----- the second pass ------------------------------------------------------------

  function Resolve(labels: map<string, nat>, l: string): seq<nat> {
    if l in labels then [labels[l]] else []
  }

  /** Where a block's terminator leads. */
  function SuccessorIds(blocks: seq<Block>, labels: map<string, nat>, k: nat): seq<nat>
    requires k < |blocks|
  {
    match blocks[k].terminator
    case Fallthrough => if k + 1 < |blocks| then [k + 1] else []
    case JumpTo(to) => Resolve(labels, to)
    case BranchTo(t, f) => Resolve(labels, t) + Resolve(labels, f)
    case Return => []
  }

  function WithEdge(blocks: seq<Block>, i: nat, j: nat): (r: seq<Block>)
    requires i < |blocks|
    ensures |r| == |blocks|
  {
    var id := blocks[i].id;
    var b := blocks[i := blocks[i].(successors := blocks[i].successors + [j])];
    if j < |b| then b[j := b[j].(predecessors := b[j].predecessors + [id])] else b
  }

  function WithEdges(blocks: seq<Block>, i: nat, js: seq<nat>): (r: seq<Block>)
    requires i < |blocks|
    ensures |r| == |blocks|
  {
    if js == [] then blocks else WithEdge(WithEdges(blocks, i, js[..|js| - 1]), i, js[|js| - 1])
  }

  lemma {:induction false} WithEdgesSnoc(blocks: seq<Block>, i: nat, js: seq<nat>, labels: map<string, nat>, l: string)
    requires i < |blocks|
    ensures WithEdges(blocks, i, js + Resolve(labels, l))
         == if l in labels then WithEdge(WithEdges(blocks, i, js), i, labels[l]) else WithEdges(blocks, i, js)
  {
    if l in labels {
      assert (js + [labels[l]])[..|js|] == js;
    } else {
      assert js + [] == js;
    }
  }

  predicate SameBody(a: Block, b: Block) {
    b == a.(successors := b.successors, predecessors := b.predecessors)
  }

  /** Adding edges from block i touches nothing but its successors and their predecessors. */
  ghost predicate EdgesAdded(before: seq<Block>, i: nat, js: seq<nat>, after: seq<Block>)
    requires i < |before| == |after|
  {
    forall k {:trigger after[k]} :: 0 <= k < |before| ==>
      && SameBody(before[k], after[k])
      && after[k].successors == (if k == i then before[k].successors + js else before[k].successors)
      && forall p: nat :: p in after[k].predecessors <==>
           p in before[k].predecessors || (p == before[i].id && k in js)
  }

  lemma {:induction false} WithEdgesAdds(blocks: seq<Block>, i: nat, js: seq<nat>)
    requires i < |blocks|
    ensures EdgesAdded(blocks, i, js, WithEdges(blocks, i, js))
  {
    if js != [] {
      var m := |js| - 1;
      WithEdgesAdds(blocks, i, js[..m]);
      assert js == js[..m] + [js[m]];
      WithEdgeAdds(blocks, i, js[..m], js[m], WithEdges(blocks, i, js[..m]));
    }
  }

  lemma {:induction false} WithEdgeAdds(blocks: seq<Block>, i: nat, js: seq<nat>, j: nat, mid: seq<Block>)
    requires i < |blocks| == |mid| && EdgesAdded(blocks, i, js, mid)
    ensures EdgesAdded(blocks, i, js + [j], WithEdge(mid, i, j))
  {
    var after := WithEdge(mid, i, j);
    assert mid[i].id == blocks[i].id;
    forall k | 0 <= k < |blocks| ensures
      && SameBody(blocks[k], after[k])
      && after[k].successors == (if k == i then blocks[k].successors + (js + [j]) else blocks[k].successors)
      && forall p: nat :: p in after[k].predecessors <==>
           p in blocks[k].predecessors || (p == blocks[i].id && k in js + [j])
    {
      assert SameBody(blocks[k], mid[k]);
      assert k in js + [j] <==> k in js || k == j;
      assert k == i ==> blocks[k].successors + (js + [j]) == blocks[k].successors + js + [j];
    }
  }

  /** The first n blocks have been connected. */
  ghost predicate Wired(b0: seq<Block>, labels: map<string, nat>, blocks: seq<Block>, n: nat) {
    && |blocks| == |b0|
    && forall k {:trigger blocks[k]} :: 0 <= k < |b0| ==>
         && SameBody(b0[k], blocks[k])
         && blocks[k].successors == (if k < n then SuccessorIds(b0, labels, k) else [])
         && forall p: nat :: p in blocks[k].predecessors <==> p < n && p < |b0| && k in SuccessorIds(b0, labels, p)
  }

  lemma {:induction false} WireOneMore(b0: seq<Block>, labels: map<string, nat>, blocks: seq<Block>, n: nat)
    requires Wired(b0, labels, blocks, n) && n < |b0| && b0[n].id == n
    ensures SuccessorIds(blocks, labels, n) == SuccessorIds(b0, labels, n)
    ensures Wired(b0, labels, WithEdges(blocks, n, SuccessorIds(b0, labels, n)), n + 1)
  {
    var js := SuccessorIds(b0, labels, n);
    var after := WithEdges(blocks, n, js);
    WithEdgesAdds(blocks, n, js);
    assert SameBody(b0[n], blocks[n]);
    forall k | 0 <= k < |b0| ensures
      && SameBody(b0[k], after[k])
      && after[k].successors == (if k < n + 1 then SuccessorIds(b0, labels, k) else [])
      && forall p: nat :: p in after[k].predecessors <==> p < n + 1 && p < |b0| && k in SuccessorIds(b0, labels, p)
    {
      WireAt(b0, labels, blocks, n, js, after, k);
    }
  }

  lemma {:induction false} WireAt(b0: seq<Block>, labels: map<string, nat>, blocks: seq<Block>, n: nat,
                                  js: seq<nat>, after: seq<Block>, k: nat)
    requires Wired(b0, labels, blocks, n) && n < |b0| == |after| && blocks[n].id == n
             && js == SuccessorIds(b0, labels, n)
    requires EdgesAdded(blocks, n, js, after) && k < |b0|
    ensures SameBody(b0[k], after[k])
    ensures after[k].successors == (if k < n + 1 then SuccessorIds(b0, labels, k) else [])
    ensures forall p: nat :: p in after[k].predecessors <==> p < n + 1 && p < |b0| && k in SuccessorIds(b0, labels, p)
  {
    assert SameBody(b0[k], blocks[k]) && SameBody(blocks[k], after[k]);
  }

  // ----- the builder object -----------------------------------------------------------

  /** A block from which control leaves the behavior. */
  predicate IsExit(b: Block) { b.successors == [] || b.terminator == Return }

  /** The graph built for a statement list. */
  ghost predicate CfgOf(nodes: seq<Node>, cfg: Cfg) {
    && Wired(ScanAll(nodes).blocks, ScanAll(nodes).labels, cfg.blocks, |cfg.blocks|)
    && cfg.entry == 0 && cfg.labelToBlock == ScanAll(nodes).labels
    && forall k: nat :: k in cfg.exits <==> k < |cfg.blocks| && IsExit(cfg.blocks[k])
  }

  class Builder {
    var blocks: seq<Block>
    var labelToBlock: map<string, nat>
    var current: Block
    var nextId: nat

    ghost predicate Is(s: Scan)
      reads this
    {
      blocks == s.blocks && labelToBlock == s.labels && current == s.current && nextId == |s.blocks|
    }

    constructor ()
      ensures Is(Start)
    {
      blocks, labelToBlock, current, nextId := [], map[], NewBlock, 0;
    }

    method FinishBlock(terminator: Terminator)
      requires nextId == |blocks|
      modifies this
      ensures Is(Finish(old(Scan(blocks, labelToBlock, current)), terminator))
    {
      current := current.(id := nextId, terminator := terminator);
      if current.name.Some? {
        labelToBlock := labelToBlock[current.name.value := nextId];
      }
      blocks, current := blocks + [current], NewBlock;
      nextId := nextId + 1;
    }

    method FirstPass(nodes: seq<Node>)
      requires Is(Start)
      modifies this
      ensures Is(ScanAll(nodes))
    {
      for idx := 0 to |nodes|
        invariant Is(ScanFirst(nodes, idx))
      {
        match nodes[idx]
        case Label(name) =>
          if current.statements != [] {
            FinishBlock(Fallthrough);
          }
          current := current.(name := Some(name));
          labelToBlock := labelToBlock[name := nextId];
          current := current.(statements := current.statements + [idx]);
        case Jump(to) =>
          current := current.(statements := current.statements + [idx]);
          FinishBlock(JumpTo(to));
        case Branch(_, onTrue, onFalse) =>
          current := current.(statements := current.statements + [idx]);
          FinishBlock(BranchTo(onTrue, onFalse));
        case _ =>
          current := current.(statements := current.statements + [idx]);
      }
      if current.statements != [] || blocks == [] {
        FinishBlock(Return);
      }
    }

    method AddEdge(i: nat, j: nat)
      requires i < |blocks|
      modifies this`blocks
      ensures blocks == WithEdge(old(blocks), i, j)
    {
      var id := blocks[i].id;
      blocks := blocks[i := blocks[i].(successors := blocks[i].successors + [j])];
      if j < |blocks| {
        blocks := blocks[j := blocks[j].(predecessors := blocks[j].predecessors + [id])];
      }
    }

    method Connect(i: nat)
      requires i < |blocks|
      modifies this`blocks
      ensures blocks == WithEdges(old(blocks), i, SuccessorIds(old(blocks), labelToBlock, i))
    {
      match blocks[i].terminator
      case Fallthrough =>
        if i + 1 < |blocks| {
          AddEdge(i, i + 1);
        }
      case JumpTo(to) =>
        if to in labelToBlock {
          AddEdge(i, labelToBlock[to]);
        }
      case BranchTo(onTrue, onFalse) =>
        ghost var first := Resolve(labelToBlock, onTrue);
        WithEdgesSnoc(blocks, i, [], labelToBlock, onTrue);
        WithEdgesSnoc(blocks, i, first, labelToBlock, onFalse);
        if onTrue in labelToBlock {
          AddEdge(i, labelToBlock[onTrue]);
        }
        if onFalse in labelToBlock {
          AddEdge(i, labelToBlock[onFalse]);
        }
      case Return =>
    }

    method SecondPass()
      requires Unconnected(blocks) && forall k :: 0 <= k < |blocks| ==> blocks[k].id == k
      modifies this`blocks
      ensures Wired(old(blocks), labelToBlock, blocks, |old(blocks)|)
    {
      ghost var b0 := blocks;
      forall k | 0 <= k < |b0| ensures b0[k].successors == [] && b0[k].predecessors == [] {
      }
      for i := 0 to |blocks|
        invariant |blocks| == |b0| && Wired(b0, labelToBlock, blocks, i)
      {
        WireOneMore(b0, labelToBlock, blocks, i);
        Connect(i);
      }
    }

    method Build(nodes: seq<Node>) returns (cfg: Cfg)
      requires Is(Start)
      modifies this
      ensures CfgOf(nodes, cfg)
    {
      FirstPass(nodes);
      ScanAllUnconnected(nodes);
      SecondPass();
      var exits: seq<nat> := [];
      for k := 0 to |blocks|
        invariant forall e: nat :: e in exits <==> e < k && IsExit(blocks[e])
      {
        if IsExit(blocks[k]) {
          exits := exits + [k];
        }
      }
      cfg := Cfg(blocks, 0, exits, labelToBlock);
    }
  }

  lemma {:induction false} ScanAllUnconnected(nodes: seq<Node>)
    ensures Unconnected(ScanAll(nodes).blocks)
    ensures forall k :: 0 <= k < |ScanAll(nodes).blocks| ==> ScanAll(nodes).blocks[k].id == k
  {
    if nodes != [] {
      ScanAllCuts(nodes);
      CutIds(nodes, ScanAll(nodes).blocks);
    }
  }

  lemma {:induction false} CutIds(nodes: seq<Node>, blocks: seq<Block>)
    requires Cut(nodes, blocks)
    ensures forall k :: 0 <= k < |blocks| ==> blocks[k].id == k
  {
    if blocks != [] {
      CutIds(nodes, blocks[..|blocks| - 1]);
    }
  }
}
