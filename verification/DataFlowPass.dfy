/** The dataflow pass itself, compiler/src/cfg.rs:455-538, and what its result says. */
module DataFlowPass {
  import opened Ast
  import opened CfgBuilder
  import opened CfgMeaning
  import opened CfgPaths
  import opened Termination
  import opened DataFlow
  import opened DataFlowSweeps
  import opened DataFlowReports

  // ----- the sweeps ---------------------------------------------------------------------------

  /** One iteration of the sweep: block k's new state, and whether it differs. */
  method UpdateBlock(cfg: Cfg, nodes: seq<Node>, states: map<nat, State>, k: nat)
    returns (next: map<nat, State>, moved: bool)
    requires k < |cfg.blocks| && cfg.blocks[k].id == k
    ensures next == states[k := Out(cfg, nodes, states, k)]
    ensures moved <==> next != states
  {
    var block := cfg.blocks[k];
    var input := MergePredecessors(states, block.predecessors);
    var current := ApplyStatements(nodes, input, block.statements);
    if block.id in states {
      moved := states[block.id] != current;
    } else {
      moved := true;
    }
    next := states[block.id := current];
    assert !moved ==> next == states;
    assert moved ==> next[k] == current;
  }

  /** Blocks from i on are as before; if nothing before them differs, the states are the same. */
  ghost predicate ChangeKnown(states: map<nat, State>, next: map<nat, State>, i: nat, changed: bool) {
    && (forall k :: k >= i ==> (k in next <==> k in states) && (k in states ==> next[k] == states[k]))
    && (changed <==> next != states)
  }

  lemma {:induction false} ChangeStays(states: map<nat, State>, next: map<nat, State>, i: nat, changed: bool, s: State,
                                       j: nat)
    requires ChangeKnown(states, next, i, changed) && j == i + 1
    ensures ChangeKnown(states, next[i := s], j, changed || next[i := s] != next)
  {
    var after := next[i := s];
    if after != next {
      assert i in next ==> next[i] != s;
      assert i in states ==> states[i] != after[i];
    }
  }

  method SweepStates(cfg: Cfg, nodes: seq<Node>, states: map<nat, State>)
    returns (next: map<nat, State>, changed: bool)
    requires Built(cfg)
    ensures next == SweptTo(cfg, nodes, states, |cfg.blocks|)
    ensures changed <==> next != states
    ensures !changed ==> Fixpoint(cfg, nodes, states)
  {
    next, changed := states, false;
    for i := 0 to |cfg.blocks|
      invariant next == SweptTo(cfg, nodes, states, i) && ChangeKnown(states, next, i, changed)
    {
      ChangeStays(states, next, i, changed, Out(cfg, nodes, next, i), i + 1);
      var moved;
      next, moved := UpdateBlock(cfg, nodes, next, i);
      if moved {
        changed := true;
      }
    }
    if !changed {
      UnchangedIsFixpoint(cfg, nodes, states);
    }
  }

  const MaxIterations: nat := 1000

  /** Some sweep within the bound changes nothing. */
  ghost predicate Converges(cfg: Cfg, nodes: seq<Node>) { exists n: nat :: n < MaxIterations && Stable(cfg, nodes, n) }

  ghost predicate Stable(cfg: Cfg, nodes: seq<Node>, n: nat) { Sweeps(cfg, nodes, n + 1) == Sweeps(cfg, nodes, n) }

  /** The flag that is left says exactly whether the sweeps have converged. */
  method Iterate(cfg: Cfg, nodes: seq<Node>) returns (states: map<nat, State>, changed: bool, ghost n: nat)
    requires Built(cfg)
    ensures 0 < n <= MaxIterations && states == Sweeps(cfg, nodes, n)
    ensures changed <==> !Converges(cfg, nodes)
    ensures if changed then n == MaxIterations else Stable(cfg, nodes, n)
  {
    states, changed := map[cfg.entry := Nothing], true;
    var iterations := 0;
    while changed && iterations < MaxIterations
      invariant 0 <= iterations <= MaxIterations && states == Sweeps(cfg, nodes, iterations)
      invariant iterations == 0 ==> changed
      invariant changed ==> forall m: nat :: m < iterations ==> !Stable(cfg, nodes, m)
      invariant !changed ==> iterations > 0 && Stable(cfg, nodes, iterations - 1) && Stable(cfg, nodes, iterations)
      decreases MaxIterations - iterations
    {
      states, changed := SweepStates(cfg, nodes, states);
      iterations := iterations + 1;
      assert changed <==> !Stable(cfg, nodes, iterations - 1);
    }
    n := iterations;
  }

  method PushEach(leaked: seq<string>, names: set<string>) returns (r: seq<string>)
    ensures forall x :: x in r <==> x in leaked || x in names
  {
    r := leaked;
    var rest := names;
    while rest != {}
      invariant rest <= names && forall x :: x in r <==> x in leaked || x in names - rest
    {
      var x :| x in rest;
      rest := rest - {x};
      r := r + [x];
    }
  }

  ghost predicate Reported(unwritten: seq<set<string>>, o: string) {
    exists i :: 0 <= i < |unwritten| && o in unwritten[i]
  }

  /** What the final loop has gathered from these exits. */
  ghost predicate Collected(outputs: set<string>, states: map<nat, State>, exits: seq<nat>,
                            leaked: seq<string>, unwritten: seq<set<string>>) {
    && (forall x :: x in leaked <==> exists e :: e in exits && e in states && x in states[e].live)
    && (forall o :: Reported(unwritten, o) <==>
          exists e :: e in exits && e in states && o in outputs && o !in states[e].written)
  }

  lemma {:induction false} ReportOneMore(unwritten: seq<set<string>>, missing: set<string>, o: string)
    ensures Reported(unwritten + [missing], o) <==> Reported(unwritten, o) || o in missing
  {
    var all := unwritten + [missing];
    assert all[|unwritten|] == missing;
    if Reported(unwritten, o) {
      var i :| 0 <= i < |unwritten| && o in unwritten[i];
      assert all[i] == unwritten[i];
    }
  }

  method CollectExits(outputs: set<string>, states: map<nat, State>, exits: seq<nat>)
    returns (leaked: seq<string>, unwritten: seq<set<string>>)
    ensures Collected(outputs, states, exits, leaked, unwritten)
  {
    leaked, unwritten := [], [];
    for i := 0 to |exits|
      invariant Collected(outputs, states, exits[..i], leaked, unwritten)
    {
      var e := exits[i];
      assert exits[..i + 1] == exits[..i] + [e];
      ghost var before := unwritten;
      if e in states {
        leaked := PushEach(leaked, states[e].live);
        var missing := set o | o in outputs && o !in states[e].written;
        forall o ensures Reported(before + [missing], o) <==> Reported(before, o) || o in missing {
          ReportOneMore(before, missing, o);
        }
        if missing != {} {
          unwritten := unwritten + [missing];
        }
      }
    }
    assert exits[..|exits|] == exits;
  }

  /** Every sweep count the pass may stop at is enough, or it has more than 1000 blocks and has
      not converged. */
  ghost predicate EnoughSweeps(cfg: Cfg, nodes: seq<Node>) {
    |cfg.blocks| <= MaxIterations || Converges(cfg, nodes)
  }

  ghost predicate Leaks(cfg: Cfg, nodes: seq<Node>, x: string) {
    exists w :: ExitWalk(cfg, w) && LeftAllocated(nodes, Visits(cfg, w), x)
  }

  ghost predicate Misses(cfg: Cfg, nodes: seq<Node>, o: string) {
    exists w :: ExitWalk(cfg, w) && !Written(nodes, Visits(cfg, w), o)
  }

  /** analyze_data_flow.  With at most 1000 blocks, or if the sweeps converge, every leak is
      reported, and every missed output if the entry is alone; reported leaks are real if
      no unreachable block leads to an exit, and reported misses if every block that leads to one
      other than through the entry has an earlier predecessor. */
  method AnalyzeDataFlow(cfg: Cfg, nodes: seq<Node>, outputs: set<string>)
    returns (leaked: seq<string>, unwritten: seq<set<string>>)
    requires Built(cfg)
    ensures EnoughSweeps(cfg, nodes) ==> forall x :: Leaks(cfg, nodes, x) ==> x in leaked
    ensures NoStrayExit(cfg) ==> forall x :: x in leaked ==> Leaks(cfg, nodes, x)
    ensures EnoughSweeps(cfg, nodes) && EntryAlone(cfg) ==>
              forall o :: o in outputs && Misses(cfg, nodes, o) ==> Reported(unwritten, o)
    ensures RootedExits(cfg) ==> forall o :: Reported(unwritten, o) ==> o in outputs && Misses(cfg, nodes, o)
  {
    var states, changed, n := Iterate(cfg, nodes);
    leaked, unwritten := CollectExits(outputs, states, cfg.exits);
    if EnoughSweeps(cfg, nodes) {
      assert Enough(cfg, nodes, n);
      LeaksAreComplete(cfg, nodes, outputs, n, leaked, unwritten);
      if EntryAlone(cfg) {
        MissesAreComplete(cfg, nodes, outputs, n, leaked, unwritten);
      }
    }
    SweepsTraced(cfg, nodes, n);
    if NoStrayExit(cfg) {
      LeaksAreReal(cfg, nodes, outputs, states, leaked, unwritten);
    }
    if RootedExits(cfg) {
      SweepsTraceMisses(cfg, nodes, n);
      MissesAreReal(cfg, nodes, outputs, states, leaked, unwritten);
    }
  }

  lemma {:induction false} LeaksAreComplete(cfg: Cfg, nodes: seq<Node>, outputs: set<string>, n: nat,
                                            leaked: seq<string>, unwritten: seq<set<string>>)
    requires Built(cfg) && Enough(cfg, nodes, n)
    requires Collected(outputs, Sweeps(cfg, nodes, n), cfg.exits, leaked, unwritten)
    ensures forall x :: Leaks(cfg, nodes, x) ==> x in leaked
  {
    forall x | Leaks(cfg, nodes, x) ensures x in leaked {
      var w :| ExitWalk(cfg, w) && LeftAllocated(nodes, Visits(cfg, w), x);
      RunAllocated(nodes, Visits(cfg, w), x);
      EnoughForLeaks(cfg, nodes, n, w, x);
      assert Last(w) in cfg.exits;
    }
  }

  lemma {:induction false} MissesAreComplete(cfg: Cfg, nodes: seq<Node>, outputs: set<string>, n: nat,
                                             leaked: seq<string>, unwritten: seq<set<string>>)
    requires Built(cfg) && EntryAlone(cfg) && Enough(cfg, nodes, n)
    requires Collected(outputs, Sweeps(cfg, nodes, n), cfg.exits, leaked, unwritten)
    ensures forall o :: o in outputs && Misses(cfg, nodes, o) ==> Reported(unwritten, o)
  {
    forall o | o in outputs && Misses(cfg, nodes, o) ensures Reported(unwritten, o) {
      var w :| ExitWalk(cfg, w) && !Written(nodes, Visits(cfg, w), o);
      EnoughForMisses(cfg, nodes, n, w, o);
      assert Last(w) in cfg.exits;
    }
  }

  lemma {:induction false} LeaksAreReal(cfg: Cfg, nodes: seq<Node>, outputs: set<string>, states: map<nat, State>,
                                        leaked: seq<string>, unwritten: seq<set<string>>)
    requires Built(cfg) && Traced(cfg, nodes, states) && NoStrayExit(cfg)
    requires Collected(outputs, states, cfg.exits, leaked, unwritten)
    ensures forall x :: x in leaked ==> Leaks(cfg, nodes, x)
  {
    forall x | x in leaked ensures Leaks(cfg, nodes, x) {
      var e :| e in cfg.exits && e in states && x in states[e].live;
      assert Carried(cfg, nodes, e, x);
      var w :| Walk(cfg, w) && Last(w) == e && x in Run(nodes, Visits(cfg, w)).live;
      RunAllocated(nodes, Visits(cfg, w), x);
      assert ExitWalk(cfg, w);
    }
  }

  lemma {:induction false} MissesAreReal(cfg: Cfg, nodes: seq<Node>, outputs: set<string>, states: map<nat, State>,
                                         leaked: seq<string>, unwritten: seq<set<string>>)
    requires Built(cfg) && MissesTraced(cfg, nodes, states, |cfg.blocks|) && RootedExits(cfg)
    requires Collected(outputs, states, cfg.exits, leaked, unwritten)
    ensures forall o :: Reported(unwritten, o) ==> o in outputs && Misses(cfg, nodes, o)
  {
    forall o | Reported(unwritten, o) ensures o in outputs && Misses(cfg, nodes, o) {
      var e :| e in cfg.exits && e in states && o in outputs && o !in states[e].written;
      assert Missable(cfg, nodes, e, o);
      var w :| Walk(cfg, w) && Last(w) == e && o !in Run(nodes, Visits(cfg, w)).written;
      RunWritten(nodes, Visits(cfg, w), o);
      assert ExitWalk(cfg, w);
    }
  }

  // ----- the same for statement lists -----------------------------------------------------------------------

  /** No statement leads back to the first one. */
  ghost predicate NoWayBack(nodes: seq<Node>) { forall i: nat :: i < |nodes| ==> !Follows(nodes, i, 0) }

  /** The straight piece that the list begins with leads back to its own beginning. */
  ghost predicate BackAtOnce(nodes: seq<Node>) { exists i: nat :: i < |nodes| && BackFrom(nodes, i) }

  ghost predicate BackFrom(nodes: seq<Node>, i: nat)
    requires i < |nodes|
  {
    Follows(nodes, i, 0) && forall j :: 0 < j <= i ==> !Boundary(nodes, j)
  }

  /** Every statement but the first may directly follow an earlier one. */
  ghost predicate Onward(nodes: seq<Node>) {
    forall i: nat {:trigger FollowsEarlier(nodes, i)} :: 0 < i < |nodes| ==> FollowsEarlier(nodes, i)
  }

  ghost predicate FollowsEarlier(nodes: seq<Node>, i: nat)
    requires i < |nodes|
  {
    exists j: nat :: j < i && Follows(nodes, j, i)
  }

  /** Statements that may follow each other, from anywhere on. */
  ghost predicate Trail(nodes: seq<Node>, r: seq<nat>) {
    && r != [] && (forall i :: 0 <= i < |r| ==> r[i] < |nodes|)
    && forall i, j :: 0 <= i < |r| && 0 <= j < |r| && j == i + 1 ==> Follows(nodes, r[i], r[j])
  }

  /** Every statement from which the end can be reached is executed by some execution. */
  ghost predicate NoStrayEnd(nodes: seq<Node>) {
    forall r {:trigger Trail(nodes, r)} :: Trail(nodes, r) && Ends(nodes, Last(r)) ==> Reached(nodes, r[0])
  }

  /** Every statement from which the end can be reached without passing the first one may follow
      an earlier one. */
  ghost predicate OnwardToEnd(nodes: seq<Node>) {
    forall r {:trigger Trail(nodes, r)} :: Trail(nodes, r) && Ends(nodes, Last(r)) && 0 !in r ==>
      FollowsEarlier(nodes, r[0])
  }

  ghost predicate Reached(nodes: seq<Node>, i: nat) { exists r :: Execution(nodes, r) && r != [] && Last(r) == i }

  lemma {:induction false} BuiltIsBuilt(nodes: seq<Node>, cfg: Cfg)
    requires CfgOf(nodes, cfg)
    ensures Built(cfg)
  {
    BuiltIsListed(nodes, cfg);
    var b0, labels := ScanAll(nodes).blocks, ScanAll(nodes).labels;
    forall k, p: nat | 0 <= k < |cfg.blocks|
      ensures p in cfg.blocks[k].predecessors <==> p < |cfg.blocks| && k in cfg.blocks[p].successors
    {
      assert SameBody(b0[k], cfg.blocks[k]);
      if p < |cfg.blocks| {
        assert SameBody(b0[p], cfg.blocks[p]);
      }
    }
  }

  lemma {:induction false} BlockOfStatement(nodes: seq<Node>, blocks: seq<Block>, i: nat) returns (m: nat)
    requires Cut(nodes, blocks) && i < End(blocks)
    ensures m < |blocks| && Lo(blocks[m]) <= i < Hi(blocks[m])
    decreases |blocks|
  {
    var k := |blocks| - 1;
    if i < Lo(blocks[k]) {
      m := BlockOfStatement(nodes, blocks[..k], i);
    } else {
      m := k;
    }
  }

  /** Blocks are numbered in the order of their statements. */
  ghost predicate InOrder(cfg: Cfg) {
    forall k, m {:trigger cfg.blocks[k], cfg.blocks[m]} :: 0 <= k < m < |cfg.blocks| ==>
          Hi(cfg.blocks[k]) <= Lo(cfg.blocks[m])
  }

  ghost predicate Holds(cfg: Cfg, m: nat, i: nat) { m < |cfg.blocks| && Lo(cfg.blocks[m]) <= i < Hi(cfg.blocks[m]) }

  lemma {:induction false} BuiltInOrder(nodes: seq<Node>, cfg: Cfg)
    requires CfgOf(nodes, cfg) && nodes != []
    ensures InOrder(cfg) && |cfg.blocks| <= |nodes|
  {
    var b0 := ScanAll(nodes).blocks;
    ScanAllCuts(nodes);
    CutIsShort(nodes, b0);
    forall k, m | 0 <= k < m < |cfg.blocks| ensures Hi(cfg.blocks[k]) <= Lo(cfg.blocks[m]) {
      assert SameBody(b0[k], cfg.blocks[k]) && SameBody(b0[m], cfg.blocks[m]);
      BlocksDisjoint(nodes, b0, k, m);
    }
  }

  lemma {:induction false} HoldingBlock(nodes: seq<Node>, cfg: Cfg, i: nat) returns (m: nat)
    requires CfgOf(nodes, cfg) && nodes != [] && i < |nodes|
    ensures Holds(cfg, m, i)
  {
    var b0 := ScanAll(nodes).blocks;
    ScanAllCuts(nodes);
    m := BlockOfStatement(nodes, b0, i);
    assert SameBody(b0[m], cfg.blocks[m]);
  }

  lemma {:induction false} OrderedPair(cfg: Cfg, k: nat, m: nat)
    requires InOrder(cfg) && k < |cfg.blocks| && m < |cfg.blocks|
    ensures k < m ==> Hi(cfg.blocks[k]) <= Lo(cfg.blocks[m])
    ensures m < k ==> Hi(cfg.blocks[m]) <= Lo(cfg.blocks[k])
  {
  }

  lemma {:induction false} CutIsShort(nodes: seq<Node>, blocks: seq<Block>)
    requires Cut(nodes, blocks)
    ensures |blocks| <= End(blocks)
    decreases |blocks|
  {
    if blocks != [] {
      CutIsShort(nodes, blocks[..|blocks| - 1]);
    }
  }

  /** A statement that leads to the beginning of block k ends a predecessor of it, or is the
      statement before it. */
  lemma {:induction false} LeadsToBlock(nodes: seq<Node>, cfg: Cfg, m: nat, i: nat, k: nat)
    requires Faithful(nodes, cfg) && InOrder(cfg) && Holds(cfg, m, i) && k < |cfg.blocks|
    requires i < |nodes| && Follows(nodes, i, Lo(cfg.blocks[k]))
             && (m == k || i + 1 != Lo(cfg.blocks[k]) || i + 1 == Hi(cfg.blocks[m]))
    ensures k in cfg.blocks[m].successors && i == Hi(cfg.blocks[m]) - 1
  {
    var b := cfg.blocks[m];
    assert Flows(nodes, cfg, m) && Flows(nodes, cfg, k);
    assert Leads(cfg, b, Lo(cfg.blocks[k]));
    var s :| s in b.successors && s < |cfg.blocks| && Lo(cfg.blocks[s]) == Lo(cfg.blocks[k]);
    assert Flows(nodes, cfg, s);
    OrderedPair(cfg, s, k);
  }

  /** What leads back to the first statement ends a predecessor of the entry. */
  lemma {:induction false} BackIsPredecessor(nodes: seq<Node>, cfg: Cfg, m: nat, i: nat)
    requires Built(cfg) && Faithful(nodes, cfg) && InOrder(cfg) && Holds(cfg, m, i) && i < |nodes|
             && Follows(nodes, i, 0)
    ensures m in cfg.blocks[0].predecessors
  {
    assert Flows(nodes, cfg, 0);
    LeadsToBlock(nodes, cfg, m, i, 0);
  }

  lemma {:induction false} PredecessorLeadsBack(nodes: seq<Node>, cfg: Cfg, p: nat)
    requires Faithful(nodes, cfg) && p < |cfg.blocks| && 0 in cfg.blocks[p].successors
    ensures 0 < Hi(cfg.blocks[p]) <= |nodes| && Follows(nodes, Hi(cfg.blocks[p]) - 1, 0)
  {
    assert Flows(nodes, cfg, p) && Flows(nodes, cfg, 0);
    assert Leads(cfg, cfg.blocks[p], 0);
  }

  lemma {:induction false} FirstBlockBounds(nodes: seq<Node>, cfg: Cfg)
    requires CfgOf(nodes, cfg) && nodes != []
    ensures |cfg.blocks| > 0 && Lo(cfg.blocks[0]) == 0 < Hi(cfg.blocks[0]) <= |nodes|
            && Boundary(nodes, Hi(cfg.blocks[0]))
    ensures forall j :: 0 < j < Hi(cfg.blocks[0]) ==> !Boundary(nodes, j)
  {
    ScanAllCuts(nodes);
    BuiltBlock(nodes, cfg, 0);
  }

  lemma {:induction false} NoWayBackMeans(nodes: seq<Node>, cfg: Cfg)
    requires CfgOf(nodes, cfg) && nodes != [] && Built(cfg) && Faithful(nodes, cfg) && InOrder(cfg)
    ensures cfg.blocks[0].predecessors == [] <==> NoWayBack(nodes)
  {
    var preds := cfg.blocks[0].predecessors;
    if preds != [] {
      assert preds[0] in preds;
      PredecessorLeadsBack(nodes, cfg, preds[0]);
    }
    if i: nat :| i < |nodes| && Follows(nodes, i, 0) {
      var m := HoldingBlock(nodes, cfg, i);
      BackIsPredecessor(nodes, cfg, m, i);
    }
  }

  lemma {:induction false} BackAtOnceLoops(nodes: seq<Node>, cfg: Cfg, i: nat)
    requires CfgOf(nodes, cfg) && nodes != [] && Built(cfg) && Faithful(nodes, cfg) && InOrder(cfg)
    requires i < |nodes| && BackFrom(nodes, i)
    ensures 0 in cfg.blocks[0].predecessors
  {
    FirstBlockBounds(nodes, cfg);
    assert Holds(cfg, 0, i);
    BackIsPredecessor(nodes, cfg, 0, i);
  }

  lemma {:induction false} BackAtOnceMeans(nodes: seq<Node>, cfg: Cfg)
    requires CfgOf(nodes, cfg) && nodes != [] && Built(cfg) && Faithful(nodes, cfg) && InOrder(cfg)
    ensures 0 in cfg.blocks[0].predecessors <==> BackAtOnce(nodes)
  {
    if i: nat :| i < |nodes| && BackFrom(nodes, i) {
      BackAtOnceLoops(nodes, cfg, i);
    }
    if 0 in cfg.blocks[0].predecessors {
      FirstBlockBounds(nodes, cfg);
      PredecessorLeadsBack(nodes, cfg, 0);
      var last: nat := Hi(cfg.blocks[0]) - 1;
      assert BackFrom(nodes, last);
    }
  }

  /** The entry block is alone exactly if no statement leads back to the first, or the piece it
      begins does. */
  lemma {:induction false} EntryAloneMeans(nodes: seq<Node>, cfg: Cfg)
    requires CfgOf(nodes, cfg) && nodes != []
    ensures EntryAlone(cfg) <==> NoWayBack(nodes) || BackAtOnce(nodes)
  {
    BuiltIsBuilt(nodes, cfg);
    BuiltIsFaithful(nodes, cfg);
    BuiltInOrder(nodes, cfg);
    NoWayBackMeans(nodes, cfg);
    BackAtOnceMeans(nodes, cfg);
  }

  /** Every block but the first has an earlier predecessor exactly if every statement but the
      first may follow an earlier one. */
  lemma {:induction false} OnwardMeansForward(nodes: seq<Node>, cfg: Cfg)
    requires CfgOf(nodes, cfg) && nodes != []
    ensures Forward(cfg) <==> Onward(nodes)
  {
    BuiltIsBuilt(nodes, cfg);
    BuiltIsFaithful(nodes, cfg);
    BuiltInOrder(nodes, cfg);
    if Onward(nodes) {
      forall k | 0 < k < |cfg.blocks| ensures EarlierPredecessor(cfg.blocks[k].predecessors, k) {
        LaterBlockStarts(nodes, cfg, k);
        EarlierBlockLeads(nodes, cfg, k);
      }
    }
    if Forward(cfg) {
      forall i: nat | 0 < i < |nodes| ensures FollowsEarlier(nodes, i) {
        var k := HoldingBlock(nodes, cfg, i);
        EarlierStatementLeads(nodes, cfg, k, i);
      }
    }
  }

  lemma {:induction false} EarlierStatementLeads(nodes: seq<Node>, cfg: Cfg, k: nat, i: nat)
    requires Built(cfg) && Faithful(nodes, cfg) && InOrder(cfg) && Forward(cfg)
    requires 0 < i < |nodes| && Holds(cfg, k, i)
    ensures FollowsEarlier(nodes, i)
  {
    assert Flows(nodes, cfg, k);
    if i == Lo(cfg.blocks[k]) {
      assert EarlierPredecessor(cfg.blocks[k].predecessors, k);
      var u :| 0 <= u < |cfg.blocks[k].predecessors| && cfg.blocks[k].predecessors[u] < k;
      var p := cfg.blocks[k].predecessors[u];
      assert p in cfg.blocks[k].predecessors && k in cfg.blocks[p].successors;
      assert Flows(nodes, cfg, p);
      assert Leads(cfg, cfg.blocks[p], i);
      OrderedPair(cfg, p, k);
      var j: nat := Hi(cfg.blocks[p]) - 1;
      assert Follows(nodes, j, i);
    } else {
      var j: nat := i - 1;
      assert !Transfers(nodes[j]);
      assert Follows(nodes, j, i);
    }
  }

  lemma {:induction false} LaterBlockStarts(nodes: seq<Node>, cfg: Cfg, k: nat)
    requires Faithful(nodes, cfg) && InOrder(cfg) && 0 < k < |cfg.blocks|
    ensures 0 < Lo(cfg.blocks[k]) < |nodes|
  {
    assert Flows(nodes, cfg, k) && Flows(nodes, cfg, 0);
    OrderedPair(cfg, 0, k);
  }

  lemma {:induction false} EarlierBlockLeads(nodes: seq<Node>, cfg: Cfg, k: nat)
    requires CfgOf(nodes, cfg) && nodes != [] && Built(cfg) && Faithful(nodes, cfg) && InOrder(cfg)
    requires k < |cfg.blocks| && Lo(cfg.blocks[k]) < |nodes| && FollowsEarlier(nodes, Lo(cfg.blocks[k]))
    ensures EarlierPredecessor(cfg.blocks[k].predecessors, k)
  {
    var i := Lo(cfg.blocks[k]);
    assert Flows(nodes, cfg, k) && Flows(nodes, cfg, 0);
    var j: nat :| j < i && Follows(nodes, j, i);
    var m := HoldingBlock(nodes, cfg, j);
    EarlierInOrder(nodes, cfg, m, k, j);
    LeadsToBlock(nodes, cfg, m, j, k);
    var preds := cfg.blocks[k].predecessors;
    assert m in preds;
    var u :| 0 <= u < |preds| && preds[u] == m;
  }

  lemma {:induction false} EarlierInOrder(nodes: seq<Node>, cfg: Cfg, m: nat, k: nat, j: nat)
    requires InOrder(cfg) && Faithful(nodes, cfg) && Holds(cfg, m, j) && k < |cfg.blocks| && j < Lo(cfg.blocks[k])
    ensures m < k && Hi(cfg.blocks[m]) <= Lo(cfg.blocks[k])
  {
    assert Flows(nodes, cfg, k) && Flows(nodes, cfg, m);
    OrderedPair(cfg, k, m);
  }

  lemma {:induction false} ReachedBlockArrives(nodes: seq<Node>, cfg: Cfg, k: nat, r: seq<nat>)
    requires CfgOf(nodes, cfg) && nodes != [] && Faithful(nodes, cfg) && k < |cfg.blocks|
    requires Execution(nodes, r) && r != [] && Last(r) == Lo(cfg.blocks[k])
    ensures Arrives(cfg, k)
  {
    var w := ExecutionIsCovered(nodes, cfg, r);
    StandsAt(nodes, cfg, w, r);
    FirstStatementIn(nodes, cfg, k, Lo(cfg.blocks[k]));
    FirstStatementIn(nodes, cfg, Last(w), Last(r));
    StatementNamesBlock(nodes, cfg, k, Last(w), Last(r));
  }

  lemma {:induction false} FirstStatementIn(nodes: seq<Node>, cfg: Cfg, k: nat, i: nat)
    requires Faithful(nodes, cfg) && k < |cfg.blocks|
    ensures Lo(cfg.blocks[k]) <= i < Hi(cfg.blocks[k]) ==> i in cfg.blocks[k].statements
    ensures Lo(cfg.blocks[k]) < Hi(cfg.blocks[k]) <= |nodes|
  {
    assert Flows(nodes, cfg, k);
    var b := cfg.blocks[k];
    if Lo(b) <= i < Hi(b) {
      assert b.statements[i - Lo(b)] == i;
    }
  }

  /** The statements along a path of blocks. */
  lemma {:induction false} PathIsTrail(nodes: seq<Node>, cfg: Cfg, p: seq<nat>) returns (r: seq<nat>)
    requires Faithful(nodes, cfg) && Path(cfg, p)
    ensures Trail(nodes, r) && r[0] == Lo(cfg.blocks[p[0]]) && Last(r) == Hi(cfg.blocks[Last(p)]) - 1
    ensures (forall i :: 0 <= i < |p| ==> Lo(cfg.blocks[p[i]]) > 0) ==> 0 !in r
    decreases |p|
  {
    var n := |p| - 1;
    var b := cfg.blocks[p[n]];
    assert Flows(nodes, cfg, p[n]);
    var q := [];
    if n > 0 {
      assert Path(cfg, p[..n]) && p[n] in cfg.blocks[p[n - 1]].successors;
      q := PathIsTrail(nodes, cfg, p[..n]);
      assert Flows(nodes, cfg, p[n - 1]);
      assert Leads(cfg, cfg.blocks[p[n - 1]], Lo(b));
    }
    r := q + Span(Lo(b), Hi(b));
    TrailExtends(nodes, q, Lo(b), Hi(b));
  }

  lemma {:induction false} TrailExtends(nodes: seq<Node>, q: seq<nat>, lo: nat, hi: nat)
    requires lo < hi <= |nodes| && (q != [] ==> Trail(nodes, q) && Follows(nodes, Last(q), lo))
    requires forall i {:trigger nodes[i]} :: lo <= i < hi - 1 ==> !Transfers(nodes[i])
    ensures Trail(nodes, q + Span(lo, hi))
  {
    var r, n := q + Span(lo, hi), |q|;
    forall i | 0 < i < |r| ensures Follows(nodes, r[i - 1], r[i]) {
      if i < n {
        assert r[i] == q[i] && r[i - 1] == q[i - 1];
      } else if i == n {
        assert r[i] == lo && r[i - 1] == q[n - 1];
      } else {
        assert r[i] == lo + (i - n) && r[i - 1] == lo + (i - n) - 1;
        assert !Transfers(nodes[r[i - 1]]);
      }
    }
  }

  lemma {:induction false} StrayBlockMeansStrayEnd(nodes: seq<Node>, cfg: Cfg, p: seq<nat>)
    requires CfgOf(nodes, cfg) && nodes != [] && Faithful(nodes, cfg) && NoStrayEnd(nodes)
    requires Path(cfg, p) && IsExit(cfg.blocks[Last(p)])
    ensures Arrives(cfg, p[0])
  {
    var r := PathIsTrail(nodes, cfg, p);
    assert Flows(nodes, cfg, Last(p));
    ExitsEnd(nodes, cfg, Last(p));
    assert Reached(nodes, r[0]);
    var e :| Execution(nodes, e) && e != [] && Last(e) == r[0];
    ReachedBlockArrives(nodes, cfg, p[0], e);
  }

  lemma {:induction false} NoStrayEndInGraph(nodes: seq<Node>, cfg: Cfg)
    requires CfgOf(nodes, cfg) && NoStrayEnd(nodes)
    ensures NoStrayExit(cfg)
  {
    BuiltIsBuilt(nodes, cfg);
    if nodes == [] {
      EmptyProgram(cfg);
      assert Last([0]) == 0;
    } else {
      BuiltIsFaithful(nodes, cfg);
    }
    forall e, u: nat | e in cfg.exits && Reaches(cfg, u, e) ensures Arrives(cfg, u) {
      var p :| Connects(cfg, p, u, e);
      if nodes != [] {
        StrayBlockMeansStrayEnd(nodes, cfg, p);
      }
    }
  }

  lemma {:induction false} OnwardToEndInGraph(nodes: seq<Node>, cfg: Cfg)
    requires CfgOf(nodes, cfg) && OnwardToEnd(nodes)
    ensures RootedExits(cfg)
  {
    BuiltIsBuilt(nodes, cfg);
    if nodes == [] {
      EmptyGraph(cfg);
      ForwardIsRooted(cfg);
    } else {
      BuiltIsFaithful(nodes, cfg);
      BuiltInOrder(nodes, cfg);
      forall e, p | e in cfg.exits && Path(cfg, p) && Last(p) == e && 0 !in p
        ensures EarlierPredecessor(cfg.blocks[p[0]].predecessors, p[0])
      {
        OnwardAlong(nodes, cfg, p);
      }
    }
  }

  lemma {:induction false} OnwardAlong(nodes: seq<Node>, cfg: Cfg, p: seq<nat>)
    requires CfgOf(nodes, cfg) && nodes != [] && Built(cfg) && Faithful(nodes, cfg) && InOrder(cfg)
    requires OnwardToEnd(nodes) && Path(cfg, p) && IsExit(cfg.blocks[Last(p)]) && 0 !in p
    ensures EarlierPredecessor(cfg.blocks[p[0]].predecessors, p[0])
  {
    var r := PathIsTrail(nodes, cfg, p);
    forall i | 0 <= i < |p| ensures Lo(cfg.blocks[p[i]]) > 0 {
      assert p[i] in p;
      LaterBlockStarts(nodes, cfg, p[i]);
    }
    assert Flows(nodes, cfg, Last(p));
    ExitsEnd(nodes, cfg, Last(p));
    EarlierBlockLeads(nodes, cfg, p[0]);
  }

  /** Some complete execution leaves x allocated. */
  ghost predicate LeaksInExecution(nodes: seq<Node>, x: string) {
    exists r :: CompleteExecution(nodes, r) && LeftAllocated(nodes, r, x)
  }

  /** Some complete execution never writes o. */
  ghost predicate MissedInExecution(nodes: seq<Node>, o: string) {
    exists r :: CompleteExecution(nodes, r) && !Written(nodes, r, o)
  }

  lemma {:induction false} ExecutionsDecide(nodes: seq<Node>, cfg: Cfg, x: string)
    requires CfgOf(nodes, cfg)
    ensures Leaks(cfg, nodes, x) <==> LeaksInExecution(nodes, x)
    ensures Misses(cfg, nodes, x) <==> MissedInExecution(nodes, x)
  {
    forall r ensures CompleteExecution(nodes, r) <==> exists w :: ExitWalk(cfg, w) && Visits(cfg, w) == r {
      CompleteExecutionsAreExitWalks(nodes, cfg, r);
    }
  }

  lemma {:induction false} EmptyGraph(cfg: Cfg)
    requires CfgOf([], cfg)
    ensures Built(cfg) && |cfg.blocks| == 1 && EntryAlone(cfg) && Forward(cfg)
  {
    BuiltIsBuilt([], cfg);
    assert ScanAll([]).blocks == [NewBlock.(terminator := Return)];
    assert SameBody(ScanAll([]).blocks[0], cfg.blocks[0]);
    NoElements(cfg.blocks[0].predecessors);
  }

  lemma {:induction false} NoElements(s: seq<nat>)
    ensures s == [] <==> forall x :: x in s ==> false
  {
    assert s != [] ==> s[0] in s;
  }

  /** Builder and pass together, as statements about executions.  With at most 1000 statements,
      or if the sweeps converge: every leak is reported, and every output that some execution
      misses, unless a jump leads back to the first statement from a later block.  Reported leaks
      are real if no dead statement leads to the end, and reported outputs if every
      statement that leads to the end other than through the first may follow an earlier one. */
  method AnalyzeProgram(nodes: seq<Node>, outputs: set<string>)
    returns (leaked: seq<string>, unwritten: seq<set<string>>, ghost cfg: Cfg)
    ensures CfgOf(nodes, cfg)
    ensures |nodes| <= MaxIterations || Converges(cfg, nodes) ==>
              forall x :: LeaksInExecution(nodes, x) ==> x in leaked
    ensures NoStrayEnd(nodes) ==> forall x :: x in leaked ==> LeaksInExecution(nodes, x)
    ensures (|nodes| <= MaxIterations || Converges(cfg, nodes)) && (NoWayBack(nodes) || BackAtOnce(nodes)) ==>
              forall o :: o in outputs && MissedInExecution(nodes, o) ==> Reported(unwritten, o)
    ensures OnwardToEnd(nodes) ==> forall o :: Reported(unwritten, o) ==> o in outputs && MissedInExecution(nodes, o)
  {
    var builder := new Builder();
    var graph := builder.Build(nodes);
    cfg := graph;
    BuiltIsBuilt(nodes, cfg);
    if nodes == [] {
      EmptyGraph(cfg);
    } else {
      BuiltInOrder(nodes, cfg);
      EntryAloneMeans(nodes, cfg);
    }
    if OnwardToEnd(nodes) {
      OnwardToEndInGraph(nodes, cfg);
    }
    leaked, unwritten := AnalyzeDataFlow(graph, nodes, outputs);
    if NoStrayEnd(nodes) {
      NoStrayEndInGraph(nodes, cfg);
    }
    forall x ensures (Leaks(cfg, nodes, x) <==> LeaksInExecution(nodes, x))
                  && (Misses(cfg, nodes, x) <==> MissedInExecution(nodes, x)) {
      ExecutionsDecide(nodes, cfg, x);
    }
  }
}
