/** Outputs of a composition must be consumed, compiler/src/semantic/mod.rs:216-335 and
    1789-1815. */
module Consumption {
  import opened Common
  import opened Ast

  /** A variable, or one field of it. */
  datatype Place = Place(base: string, field: Option<string>)

  /** A produced output that has to be consumed; at is the statement. */
  datatype Obligation = Obligation(place: Place, display: string, behavior: string, at: nat)

  datatype Unconsumed = Unconsumed(behavior: string, output: string, at: nat)

  /** The names of the composition's own outputs, and the outputs of each callee contract. */
  datatype Context = Context(outputs: set<string>, contracts: map<string, seq<string>>)

  function ContractOutputs(ctx: Context, behavior: string): seq<string> {
    if behavior in ctx.contracts then ctx.contracts[behavior] else []
  }

  // ----- the specification, by membership only -------------------------------------------------

  /** The places an expression mentions; primitive operations are not looked into. */
  function Places(e: Expr): seq<Place> {
    match e
    case Var(x) => [Place(x, None)]
    case Field(Var(x), f) => [Place(x, Some(f))]
    case Field(base, _) => Places(base)
    case Call(_, args) => PlacesOfAll(args)
    case Spawn(_, args) => PlacesOfAll(args)
    case _ => []
  }

  function PlacesOfAll(es: seq<Expr>): seq<Place> {
    if es == [] then [] else PlacesOfAll(es[..|es| - 1]) + Places(es[|es| - 1])
  }

  /** The expressions whose value a statement consumes. */
  function Sinks(node: Node): seq<Expr> {
    match node
    case CallNode(_, args, _) => args
    case Assignment(_, Call(_, args)) => args
    case Assignment(_, Spawn(_, args)) => args
    case Branch(condition, _, _) => [condition]
    case Set(_, value) => [value]
    case Discard(value) => [value]
    case Store(_, value, None) => [value]
    case Store(_, value, Some(offset)) => [value, offset]
    case ChannelSend(value) => [value]
    case SpawnNode(args) => args
    case _ => []
  }

  /** A plain assignment passes values on to its target. */
  predicate PassesOn(node: Node) { node.Assignment? && !node.expr.Call? && !node.expr.Spawn? }

  ghost predicate IsSink(nodes: seq<Node>, p: Place) {
    exists node :: node in nodes && p in PlacesOfAll(Sinks(node))
  }

  /** Some plain assignment carries p into the variable of which q is (a field). */
  ghost predicate Carries(nodes: seq<Node>, p: Place, q: Place) {
    exists node :: node in nodes && PassesOn(node) && node.target == q.base && p in Places(node.expr)
  }

  ghost predicate Chain(nodes: seq<Node>, c: seq<Place>) {
    && c != [] && IsSink(nodes, c[|c| - 1])
    && forall i, j :: 0 <= i < |c| && 0 <= j < |c| && j == i + 1 ==> Carries(nodes, c[i], c[j])
  }

  /** A chain of assignments leads from p to a sink. */
  ghost predicate ReachesSink(nodes: seq<Node>, p: Place) { exists c :: Chain(nodes, c) && c[0] == p }

  /** A field is also consumed with its whole variable. */
  ghost predicate Consumed(nodes: seq<Node>, p: Place) {
    ReachesSink(nodes, p) || (p.field.Some? && ReachesSink(nodes, Place(p.base, None)))
  }

  /** The outputs a statement binds and therefore has to see consumed. */
  function ObligationsOf(node: Node, at: nat, ctx: Context): seq<Obligation> {
    match node
    case CallNode(behavior, _, outputs) => Bound(outputs, behavior, at, ctx)
    case Assignment(target, Call(behavior, _)) => Fields(target, ContractOutputs(ctx, behavior), behavior, at)
    case _ => []
  }

  function Bound(names: seq<string>, behavior: string, at: nat, ctx: Context): seq<Obligation> {
    if names == [] then []
    else
      var n := |names| - 1;
      Bound(names[..n], behavior, at, ctx)
        + if names[n] in ctx.outputs then [] else [Obligation(Place(names[n], None), names[n], behavior, at)]
  }

  function Fields(target: string, names: seq<string>, behavior: string, at: nat): seq<Obligation> {
    seq(|names|, i requires 0 <= i < |names| =>
      Obligation(Place(target, Some(names[i])), target + "." + names[i], behavior, at))
  }

  /** A CALL that binds nothing drops every output of its callee. */
  function Dropped(node: Node, at: nat, ctx: Context): seq<Unconsumed> {
    if node.CallNode? && node.outputs == [] then DroppedNames(ContractOutputs(ctx, node.behavior), node.behavior, at)
    else []
  }

  function DroppedNames(names: seq<string>, behavior: string, at: nat): seq<Unconsumed> {
    seq(|names|, i requires 0 <= i < |names| => Unconsumed(behavior, names[i], at))
  }

  /** E0511 is due for u: dropped by a bare CALL, or bound and never consumed. */
  ghost predicate Due(nodes: seq<Node>, ctx: Context, u: Unconsumed) {
    && u.at < |nodes|
    && (|| u in Dropped(nodes[u.at], u.at, ctx)
        || exists o :: o in ObligationsOf(nodes[u.at], u.at, ctx)
                    && u == Unconsumed(o.behavior, o.display, o.at) && !Consumed(nodes, o.place))
  }

  // ----- order does not matter --------------------------------------------------------------------

  lemma {:induction false} SameSinks(a: seq<Node>, b: seq<Node>, p: Place)
    requires forall node :: node in a ==> node in b
    ensures ReachesSink(a, p) ==> ReachesSink(b, p)
  {
    if c :| Chain(a, c) && c[0] == p {
      forall i, j | 0 <= i < |c| && 0 <= j < |c| && j == i + 1 ensures Carries(b, c[i], c[j]) {
        assert Carries(a, c[i], c[j]);
      }
      assert Chain(b, c);
    }
  }

  /** Whether an output is consumed depends on which statements there are, not on their order
      or number. */
  lemma {:induction false} OrderIrrelevant(a: seq<Node>, b: seq<Node>, p: Place)
    requires forall node :: node in a <==> node in b
    ensures Consumed(a, p) <==> Consumed(b, p)
  {
    SameSinks(a, b, p);
    SameSinks(b, a, p);
    SameSinks(a, b, Place(p.base, None));
    SameSinks(b, a, Place(p.base, None));
  }

  // ----- collecting ---------------------------------------------------------------------------------

  datatype Wire = Wire(target: string, places: seq<Place>)

  function WireOf(node: Node): seq<Wire> {
    if PassesOn(node) then [Wire(node.target, Places(node.expr))] else []
  }

  function AllWires(nodes: seq<Node>): seq<Wire> {
    if nodes == [] then [] else AllWires(nodes[..|nodes| - 1]) + WireOf(nodes[|nodes| - 1])
  }

  function AllObligations(nodes: seq<Node>, ctx: Context): seq<Obligation> {
    if nodes == [] then []
    else
      var n := |nodes| - 1;
      AllObligations(nodes[..n], ctx) + ObligationsOf(nodes[n], n, ctx)
  }

  function AllDropped(nodes: seq<Node>, ctx: Context): seq<Unconsumed> {
    if nodes == [] then []
    else
      var n := |nodes| - 1;
      AllDropped(nodes[..n], ctx) + Dropped(nodes[n], n, ctx)
  }

  method CollectPlaces(e: Expr, out: seq<Place>) returns (r: seq<Place>)
    ensures r == out + Places(e)
    decreases e
  {
    r := out;
    match e
    case Var(x) => r := r + [Place(x, None)];
    case Field(base, f) =>
      if base.Var? {
        r := r + [Place(base.name, Some(f))];
      } else {
        r := CollectPlaces(base, r);
      }
    case Call(_, args) =>
      for i := 0 to |args|
        invariant r == out + PlacesOfAll(args[..i])
      {
        assert args[..i + 1][..i] == args[..i];
        r := CollectPlaces(args[i], r);
      }
      assert args[..|args|] == args;
    case Spawn(_, args) =>
      for i := 0 to |args|
        invariant r == out + PlacesOfAll(args[..i])
      {
        assert args[..i + 1][..i] == args[..i];
        r := CollectPlaces(args[i], r);
      }
      assert args[..|args|] == args;
    case _ =>
  }

  /** live grew by these places. */
  ghost predicate Added(live: set<Place>, places: seq<Place>, r: set<Place>) {
    forall p :: p in r <==> p in live || p in places
  }

  method AddSinkPlaces(e: Expr, live: set<Place>) returns (r: set<Place>)
    ensures Added(live, Places(e), r)
  {
    var places := CollectPlaces(e, []);
    r := live;
    for i := 0 to |places|
      invariant Added(live, places[..i], r)
    {
      assert places[..i + 1] == places[..i] + [places[i]];
      r := r + {places[i]};
    }
    assert places[..|places|] == places;
  }

  method AddArguments(args: seq<Expr>, live: set<Place>) returns (r: set<Place>)
    ensures Added(live, PlacesOfAll(args), r)
  {
    r := live;
    for i := 0 to |args|
      invariant Added(live, PlacesOfAll(args[..i]), r)
    {
      assert args[..i + 1][..i] == args[..i];
      r := AddSinkPlaces(args[i], r);
    }
    assert args[..|args|] == args;
  }

  lemma {:induction false} PlacesOfFew(e: Expr, f: Expr)
    ensures PlacesOfAll([e]) == Places(e) && PlacesOfAll([e, f]) == Places(e) + Places(f)
  {
    assert [e][..0] == [] && [e, f][..1] == [e];
    assert PlacesOfAll([e]) == [] + Places(e);
  }

  /** The consuming positions of one statement. */
  method SinkNode(node: Node, live: set<Place>) returns (r: set<Place>)
    ensures Added(live, PlacesOfAll(Sinks(node)), r)
  {
    r := live;
    match node
    case CallNode(_, args, _) => r := AddArguments(args, r);
    case Assignment(_, expr) =>
      if expr.Call? {
        r := AddArguments(expr.args, r);
      } else if expr.Spawn? {
        r := AddArguments(expr.args, r);
      }
    case Branch(condition, _, _) =>
      PlacesOfFew(condition, condition);
      r := AddSinkPlaces(condition, r);
    case Set(_, value) =>
      PlacesOfFew(value, value);
      r := AddSinkPlaces(value, r);
    case Discard(value) =>
      PlacesOfFew(value, value);
      r := AddSinkPlaces(value, r);
    case Store(_, value, offset) =>
      PlacesOfFew(value, if offset.Some? then offset.value else value);
      r := AddSinkPlaces(value, r);
      if offset.Some? {
        r := AddSinkPlaces(offset.value, r);
      }
    case ChannelSend(value) =>
      PlacesOfFew(value, value);
      r := AddSinkPlaces(value, r);
    case SpawnNode(args) => r := AddArguments(args, r);
    case _ =>
  }

  /** The outputs one statement produces. */
  method OutputsOfNode(node: Node, at: nat, ctx: Context) returns (bound: seq<Obligation>, dropped: seq<Unconsumed>)
    ensures bound == ObligationsOf(node, at, ctx) && dropped == Dropped(node, at, ctx)
  {
    bound, dropped := [], [];
    match node
    case CallNode(behavior, _, outputs) =>
      if outputs == [] {
        if behavior in ctx.contracts {
          var names := ctx.contracts[behavior];
          for i := 0 to |names|
            invariant dropped == DroppedNames(names, behavior, at)[..i]
          {
            dropped := dropped + [Unconsumed(behavior, names[i], at)];
          }
        }
      } else {
        for i := 0 to |outputs|
          invariant bound == Bound(outputs[..i], behavior, at, ctx)
        {
          assert outputs[..i + 1][..i] == outputs[..i];
          if outputs[i] in ctx.outputs {
            continue;
          }
          bound := bound + [Obligation(Place(outputs[i], None), outputs[i], behavior, at)];
        }
        assert outputs[..|outputs|] == outputs;
      }
    case Assignment(target, expr) =>
      if expr.Call? && expr.behavior in ctx.contracts {
        var names := ctx.contracts[expr.behavior];
        for i := 0 to |names|
          invariant bound == Fields(target, names, expr.behavior, at)[..i]
        {
          bound := bound + [Obligation(Place(target, Some(names[i])), target + "." + names[i], expr.behavior, at)];
        }
      }
    case _ =>
  }

  method Gather(nodes: seq<Node>, ctx: Context)
    returns (live: set<Place>, wires: seq<Wire>, obligations: seq<Obligation>, dropped: seq<Unconsumed>)
    ensures forall p :: p in live <==> IsSink(nodes, p)
    ensures wires == AllWires(nodes) && obligations == AllObligations(nodes, ctx) && dropped == AllDropped(nodes, ctx)
  {
    live, wires, obligations, dropped := {}, [], [], [];
    for i := 0 to |nodes|
      invariant forall p :: p in live <==> IsSink(nodes[..i], p)
      invariant wires == AllWires(nodes[..i])
      invariant obligations == AllObligations(nodes[..i], ctx) && dropped == AllDropped(nodes[..i], ctx)
    {
      var node := nodes[i];
      assert nodes[..i + 1][..i] == nodes[..i];
      SinkSnoc(nodes, i);
      live := SinkNode(node, live);
      var bound, lost := OutputsOfNode(node, i, ctx);
      obligations, dropped := obligations + bound, dropped + lost;
      if node.Assignment? && !node.expr.Call? && !node.expr.Spawn? {
        var places := CollectPlaces(node.expr, []);
        assert places == Places(node.expr);
        wires := wires + [Wire(node.target, places)];
      } else {
        assert wires + WireOf(node) == wires;
      }
    }
    assert nodes[..|nodes|] == nodes;
  }

  lemma {:induction false} SinkSnoc(nodes: seq<Node>, i: nat)
    requires i < |nodes|
    ensures forall p :: IsSink(nodes[..i + 1], p) <==> IsSink(nodes[..i], p) || p in PlacesOfAll(Sinks(nodes[i]))
  {
    assert nodes[..i + 1] == nodes[..i] + [nodes[i]];
    forall p ensures IsSink(nodes[..i + 1], p) <==> IsSink(nodes[..i], p) || p in PlacesOfAll(Sinks(nodes[i])) {
      if p in PlacesOfAll(Sinks(nodes[i])) {
        assert nodes[i] in nodes[..i + 1];
      }
    }
  }

  // ----- the fixpoint -----------------------------------------------------------------------------

  ghost predicate WireCarries(wires: seq<Wire>, p: Place, q: Place) {
    exists k :: 0 <= k < |wires| && wires[k].target == q.base && p in wires[k].places
  }

  lemma {:induction false} WiresCarry(nodes: seq<Node>, p: Place, q: Place)
    ensures WireCarries(AllWires(nodes), p, q) <==> Carries(nodes, p, q)
  {
    if nodes != [] {
      var n := |nodes| - 1;
      var rest, wires := nodes[..n], AllWires(nodes);
      WiresCarry(rest, p, q);
      assert nodes == rest + [nodes[n]];
      if WireCarries(AllWires(rest), p, q) {
        var k :| 0 <= k < |AllWires(rest)| && AllWires(rest)[k].target == q.base && p in AllWires(rest)[k].places;
        assert wires[k] == AllWires(rest)[k];
      }
      if PassesOn(nodes[n]) {
        assert nodes[n] in nodes;
        assert wires[|wires| - 1] == Wire(nodes[n].target, Places(nodes[n].expr));
      }
    }
  }

  /** Places that some wire starts from. */
  ghost function WiredPlaces(wires: seq<Wire>): (s: set<Place>)
    ensures forall k, p :: 0 <= k < |wires| && p in wires[k].places ==> p in s
  {
    if wires == [] then {}
    else
      var n := |wires| - 1;
      WiredPlaces(wires[..n]) + set p | p in wires[n].places
  }

  predicate TargetLive(live: set<Place>, target: string) {
    Place(target, None) in live || exists p :: p in live && p.base == target && p.field.Some?
  }

  lemma {:induction false} TargetLiveMeans(live: set<Place>, target: string)
    ensures TargetLive(live, target) <==> exists p :: p in live && p.base == target
  {
    if p :| p in live && p.base == target {
      assert p.field.None? ==> p == Place(target, None);
    }
  }

  ghost predicate Settled(wire: Wire, live: set<Place>) {
    TargetLive(live, wire.target) ==> forall p :: p in wire.places ==> p in live
  }

  ghost predicate Sound(nodes: seq<Node>, live: set<Place>) { forall p :: p in live ==> ReachesSink(nodes, p) }

  lemma {:induction false} PassBack(nodes: seq<Node>, wires: seq<Wire>, k: nat, live: set<Place>)
    requires wires == AllWires(nodes) && k < |wires| && Sound(nodes, live) && TargetLive(live, wires[k].target)
    ensures forall p :: p in wires[k].places ==> ReachesSink(nodes, p)
  {
    TargetLiveMeans(live, wires[k].target);
    var q :| q in live && q.base == wires[k].target;
    forall p | p in wires[k].places ensures ReachesSink(nodes, p) {
      assert WireCarries(wires, p, q);
      WiresCarry(nodes, p, q);
      ChainExtends(nodes, p, q);
    }
  }

  lemma {:induction false} ChainExtends(nodes: seq<Node>, p: Place, q: Place)
    requires Carries(nodes, p, q) && ReachesSink(nodes, q)
    ensures ReachesSink(nodes, p)
  {
    var c :| Chain(nodes, c) && c[0] == q;
    var d := [p] + c;
    forall i, j | 0 <= i < |d| && 0 <= j < |d| && j == i + 1 ensures Carries(nodes, d[i], d[j]) {
      if i == 0 {
        assert d[i] == p && d[j] == q;
      } else {
        var k := i - 1;
        assert d[i] == c[k] && d[j] == c[i];
      }
    }
    assert d[|d| - 1] == c[|c| - 1];
    assert Chain(nodes, d);
  }

  /** Makes the places of one wire live. */
  method Insert(places: seq<Place>, live0: set<Place>) returns (live: set<Place>, changed: bool)
    ensures Added(live0, places, live)
    ensures changed <==> live != live0
  {
    live, changed := live0, false;
    for i := 0 to |places|
      invariant Added(live0, places[..i], live)
      invariant changed <==> live != live0
    {
      assert places[..i + 1] == places[..i] + [places[i]];
      if places[i] !in live {
        assert places[i] !in live0;
        live, changed := live + {places[i]}, true;
      }
    }
    assert places[..|places|] == places;
  }

  /** One pass over the wires. */
  method SweepWires(ghost nodes: seq<Node>, wires: seq<Wire>, live0: set<Place>)
    returns (live: set<Place>, changed: bool)
    requires wires == AllWires(nodes) && Sound(nodes, live0)
    ensures Sound(nodes, live) && live0 <= live <= live0 + WiredPlaces(wires)
    ensures changed ==> live != live0
    ensures !changed ==> live == live0 && forall k :: 0 <= k < |wires| ==> Settled(wires[k], live)
  {
    live, changed := live0, false;
    for i := 0 to |wires|
      invariant Sound(nodes, live) && live0 <= live <= live0 + WiredPlaces(wires)
      invariant changed ==> live != live0
      invariant !changed ==> live == live0 && forall k :: 0 <= k < i ==> Settled(wires[k], live)
    {
      if TargetLive(live, wires[i].target) {
        PassBack(nodes, wires, i, live);
        ghost var before := live;
        var more;
        live, more := Insert(wires[i].places, live);
        InsertKeeps(nodes, wires, i, live0, before, live);
        if more {
          changed := true;
        }
      }
    }
  }

  lemma {:induction false} InsertKeeps(nodes: seq<Node>, wires: seq<Wire>, i: nat, live0: set<Place>,
                                       before: set<Place>, live: set<Place>)
    requires i < |wires| && Added(before, wires[i].places, live) && live0 <= before <= live0 + WiredPlaces(wires)
    requires Sound(nodes, before) && forall p :: p in wires[i].places ==> ReachesSink(nodes, p)
    ensures Sound(nodes, live) && live0 <= live <= live0 + WiredPlaces(wires) && Settled(wires[i], live)
    ensures live != before ==> live != live0
  {
    if live != before {
      var x :| x in live && x !in before;
    }
  }

  /** The fixpoint is the set of places from which a chain leads to a sink. */
  method Propagate(ghost nodes: seq<Node>, wires: seq<Wire>, live0: set<Place>) returns (live: set<Place>)
    requires wires == AllWires(nodes) && forall p :: p in live0 <==> IsSink(nodes, p)
    ensures forall p :: p in live <==> ReachesSink(nodes, p)
  {
    live := live0;
    ghost var all := live0 + WiredPlaces(wires);
    forall p | p in live0 ensures ReachesSink(nodes, p) {
      assert Chain(nodes, [p]);
    }
    var changed := true;
    while changed
      invariant Sound(nodes, live) && live0 <= live <= all
      invariant !changed ==> forall k :: 0 <= k < |wires| ==> Settled(wires[k], live)
      decreases all - live, changed
    {
      ghost var before := live;
      live, changed := SweepWires(nodes, wires, live);
      if changed {
        GrowthShrinksRest(all, before, live);
      }
    }
    forall p | ReachesSink(nodes, p) ensures p in live {
      var c :| Chain(nodes, c) && c[0] == p;
      ChainIsLive(nodes, wires, live, c);
    }
  }

  lemma {:induction false} GrowthShrinksRest(all: set<Place>, before: set<Place>, after: set<Place>)
    requires before <= after <= all && before != after
    ensures all - after < all - before
  {
    var x :| x in after && x !in before;
    assert x in all - before;
  }

  lemma {:induction false} ChainIsLive(nodes: seq<Node>, wires: seq<Wire>, live: set<Place>, c: seq<Place>)
    requires wires == AllWires(nodes) && Chain(nodes, c) && forall p :: IsSink(nodes, p) ==> p in live
    requires forall k :: 0 <= k < |wires| ==> Settled(wires[k], live)
    ensures c[0] in live
  {
    if |c| > 1 {
      assert Carries(nodes, c[0], c[1]);
      assert Chain(nodes, c[1..]);
      ChainIsLive(nodes, wires, live, c[1..]);
      WiresCarry(nodes, c[0], c[1]);
      var k :| 0 <= k < |wires| && wires[k].target == c[1].base && c[0] in wires[k].places;
      TargetLiveMeans(live, wires[k].target);
      assert Settled(wires[k], live);
    }
  }

  // ----- the check -----------------------------------------------------------------------------------

  lemma {:induction false} ObligationsAt(nodes: seq<Node>, ctx: Context, o: Obligation)
    ensures o in AllObligations(nodes, ctx) <==> o.at < |nodes| && o in ObligationsOf(nodes[o.at], o.at, ctx)
  {
    if nodes != [] {
      var n := |nodes| - 1;
      ObligationsAt(nodes[..n], ctx, o);
      if o in ObligationsOf(nodes[n], n, ctx) {
        AtItsStatement(nodes[n], n, ctx, o);
      }
    }
  }

  lemma {:induction false} AtItsStatement(node: Node, at: nat, ctx: Context, o: Obligation)
    requires o in ObligationsOf(node, at, ctx)
    ensures o.at == at
  {
    if node.CallNode? {
      BoundAt(node.outputs, node.behavior, at, ctx, o);
    }
  }

  lemma {:induction false} BoundAt(names: seq<string>, behavior: string, at: nat, ctx: Context, o: Obligation)
    requires o in Bound(names, behavior, at, ctx)
    ensures o.at == at
  {
    var n := |names| - 1;
    if o in Bound(names[..n], behavior, at, ctx) {
      BoundAt(names[..n], behavior, at, ctx, o);
    }
  }

  lemma {:induction false} DroppedAt(nodes: seq<Node>, ctx: Context, u: Unconsumed)
    ensures u in AllDropped(nodes, ctx) <==> u.at < |nodes| && u in Dropped(nodes[u.at], u.at, ctx)
  {
    if nodes != [] {
      var n := |nodes| - 1;
      DroppedAt(nodes[..n], ctx, u);
    }
  }

  predicate Met(live: set<Place>, p: Place) {
    p in live || (p.field.Some? && Place(p.base, None) in live)
  }

  /** check_outputs_consumed reports exactly the dropped outputs and those bound outputs from
      which no chain of assignments leads to a sink. */
  method CheckOutputsConsumed(nodes: seq<Node>, ctx: Context) returns (errors: seq<Unconsumed>)
    ensures forall u :: u in errors <==> Due(nodes, ctx, u)
  {
    var live, wires, obligations, dropped := Gather(nodes, ctx);
    live := Propagate(nodes, wires, live);
    errors := dropped;
    for i := 0 to |obligations|
      invariant forall u :: u in errors <==> u in dropped || Missed(obligations[..i], live, u)
    {
      var o := obligations[i];
      assert obligations[..i + 1] == obligations[..i] + [o];
      MissedSnoc(obligations[..i], o, live);
      if !(o.place in live || (o.place.field.Some? && Place(o.place.base, None) in live)) {
        errors := errors + [Unconsumed(o.behavior, o.display, o.at)];
      }
    }
    assert obligations[..|obligations|] == obligations;
    forall u ensures u in errors <==> Due(nodes, ctx, u) {
      DueExactly(nodes, ctx, obligations, dropped, live, u);
    }
  }

  ghost predicate Missed(obligations: seq<Obligation>, live: set<Place>, u: Unconsumed) {
    exists o :: o in obligations && u == Unconsumed(o.behavior, o.display, o.at) && !Met(live, o.place)
  }

  lemma {:induction false} MissedSnoc(obligations: seq<Obligation>, o: Obligation, live: set<Place>)
    ensures forall u :: Missed(obligations + [o], live, u) <==>
              Missed(obligations, live, u) || (u == Unconsumed(o.behavior, o.display, o.at) && !Met(live, o.place))
  {
    forall u ensures Missed(obligations + [o], live, u) <==>
              Missed(obligations, live, u) || (u == Unconsumed(o.behavior, o.display, o.at) && !Met(live, o.place)) {
      assert o in obligations + [o];
    }
  }

  lemma {:induction false} DueExactly(nodes: seq<Node>, ctx: Context, obligations: seq<Obligation>,
                                      dropped: seq<Unconsumed>, live: set<Place>, u: Unconsumed)
    requires obligations == AllObligations(nodes, ctx) && dropped == AllDropped(nodes, ctx)
    requires forall p :: p in live <==> ReachesSink(nodes, p)
    ensures u in dropped || Missed(obligations, live, u) <==> Due(nodes, ctx, u)
  {
    DroppedAt(nodes, ctx, u);
    forall o ensures o in obligations <==> o.at < |nodes| && o in ObligationsOf(nodes[o.at], o.at, ctx) {
      ObligationsAt(nodes, ctx, o);
    }
    forall p ensures Met(live, p) <==> Consumed(nodes, p) {
    }
    if u.at < |nodes| {
      forall o | o in ObligationsOf(nodes[u.at], u.at, ctx) ensures o.at == u.at {
        AtItsStatement(nodes[u.at], u.at, ctx, o);
      }
    }
  }

  // ----- the verdict does not depend on the order of the statements -----------------------------

  lemma {:induction false} BoundMoves(names: seq<string>, behavior: string, i: nat, j: nat, ctx: Context, o: Obligation)
    requires o in Bound(names, behavior, i, ctx)
    ensures o.(at := j) in Bound(names, behavior, j, ctx)
  {
    var n := |names| - 1;
    if o in Bound(names[..n], behavior, i, ctx) {
      BoundMoves(names[..n], behavior, i, j, ctx, o);
    }
  }

  lemma {:induction false} ObligationMoves(node: Node, i: nat, j: nat, ctx: Context, o: Obligation)
    requires o in ObligationsOf(node, i, ctx)
    ensures o.(at := j) in ObligationsOf(node, j, ctx)
  {
    if node.CallNode? {
      BoundMoves(node.outputs, node.behavior, i, j, ctx, o);
    } else {
      var k :| 0 <= k < |ObligationsOf(node, i, ctx)| && ObligationsOf(node, i, ctx)[k] == o;
      assert ObligationsOf(node, j, ctx)[k] == o.(at := j);
    }
  }

  lemma {:induction false} DropMoves(node: Node, i: nat, j: nat, ctx: Context, u: Unconsumed)
    requires u in Dropped(node, i, ctx)
    ensures u.(at := j) in Dropped(node, j, ctx)
  {
    var k :| 0 <= k < |Dropped(node, i, ctx)| && Dropped(node, i, ctx)[k] == u;
    assert Dropped(node, j, ctx)[k] == u.(at := j);
  }

  lemma {:induction false} DueMoves(a: seq<Node>, b: seq<Node>, ctx: Context, i: nat, j: nat, u: Unconsumed)
    requires (forall node :: node in a <==> node in b) && i < |a| && j < |b| && a[i] == b[j]
    requires u.at == i && Due(a, ctx, u)
    ensures Due(b, ctx, u.(at := j))
  {
    if u in Dropped(a[i], i, ctx) {
      DropMoves(a[i], i, j, ctx, u);
    } else {
      var o :| o in ObligationsOf(a[i], i, ctx) && u == Unconsumed(o.behavior, o.display, o.at)
          && !Consumed(a, o.place);
      ObligationMoves(a[i], i, j, ctx, o);
      OrderIrrelevant(a, b, o.place);
      var o' := o.(at := j);
      assert u.(at := j) == Unconsumed(o'.behavior, o'.display, o'.at) && !Consumed(b, o'.place);
    }
  }

  /** Reordering the statements moves the reports with them and changes none. */
  lemma {:induction false} VerdictIgnoresOrder(a: seq<Node>, b: seq<Node>, ctx: Context, i: nat, j: nat,
                                               behavior: string, output: string)
    requires (forall node :: node in a <==> node in b) && i < |a| && j < |b| && a[i] == b[j]
    ensures Due(a, ctx, Unconsumed(behavior, output, i)) <==> Due(b, ctx, Unconsumed(behavior, output, j))
  {
    if Due(a, ctx, Unconsumed(behavior, output, i)) {
      DueMoves(a, b, ctx, i, j, Unconsumed(behavior, output, i));
    }
    if Due(b, ctx, Unconsumed(behavior, output, j)) {
      DueMoves(b, a, ctx, j, i, Unconsumed(behavior, output, j));
    }
  }
}
