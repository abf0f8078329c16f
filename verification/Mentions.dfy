/** What the consumption check of compiler/src/semantic/mod.rs:216-335 and 1789-1815 looks at, stated
    over the expressions and statements themselves. */
module Mentions {
  import opened Common
  import opened Ast
  import opened Consumption

  // ----- inside an expression --------------------------------------------------------------

  /** Where the check looks next: at the arguments of a call or spawn, and at what a field is taken
      of unless that is a variable. */
  ghost predicate LooksInto(e: Expr, sub: Expr) {
    || ((e.Call? || e.Spawn?) && sub in e.args)
    || (e.Field? && !e.base.Var? && sub == e.base)
  }

  ghost predicate Descent(c: seq<Expr>) {
    c != [] && forall i, j :: 0 <= i < |c| && 0 <= j < |c| && j == i + 1 ==> LooksInto(c[i], c[j])
  }

  ghost predicate DescendsTo(c: seq<Expr>, e: Expr, sub: Expr) { Descent(c) && c[0] == e && c[|c| - 1] == sub }

  /** sub is e or occurs in a place of e that is looked into. */
  ghost predicate Occurs(e: Expr, sub: Expr) { exists c :: DescendsTo(c, e, sub) }

  lemma {:induction false} OccursItself(e: Expr)
    ensures Occurs(e, e)
  {
    assert DescendsTo([e], e, e);
  }

  lemma {:induction false} OccursDeeper(e: Expr, e1: Expr, sub: Expr)
    requires LooksInto(e, e1) && Occurs(e1, sub)
    ensures Occurs(e, sub)
  {
    var c :| DescendsTo(c, e1, sub);
    var d := [e] + c;
    forall i, j | 0 <= i < |d| && 0 <= j < |d| && j == i + 1 ensures LooksInto(d[i], d[j]) {
      if i > 0 {
        var k := i - 1;
        assert d[i] == c[k] && d[j] == c[i];
      }
    }
    assert DescendsTo(d, e, sub);
  }

  lemma {:induction false} OccursWhere(e: Expr, sub: Expr)
    requires Occurs(e, sub) && e != sub
    ensures exists e1 :: LooksInto(e, e1) && Occurs(e1, sub)
  {
    var c :| DescendsTo(c, e, sub);
    assert LooksInto(c[0], c[1]);
    assert DescendsTo(c[1..], c[1], sub);
  }

  /** A whole variable, or a field of one. */
  function ExprOf(p: Place): Expr {
    if p.field.Some? then Field(Var(p.base), p.field.value) else Var(p.base)
  }

  lemma {:induction false} AllPlaces(es: seq<Expr>, p: Place)
    ensures p in PlacesOfAll(es) <==> exists e :: e in es && p in Places(e)
  {
    if es != [] {
      var n := |es| - 1;
      AllPlaces(es[..n], p);
      if p in Places(es[n]) {
        assert es[n] in es;
      }
      if p in PlacesOfAll(es[..n]) {
        var e :| e in es[..n] && p in Places(e);
        assert e in es;
      }
      if e :| e in es && p in Places(e) {
        assert e in es[..n] || e == es[n];
      }
    }
  }

  lemma {:induction false} PlaceOccurs(e: Expr, p: Place)
    ensures p in Places(e) <==> Occurs(e, ExprOf(p))
    decreases e
  {
    match e
    case Call(_, args) => ArgumentsOccur(e, args, p);
    case Spawn(_, args) => ArgumentsOccur(e, args, p);
    case Field(base, f) => FieldOccurs(e, base, f, p);
    case _ => LeafOccurs(e, p);
  }

  lemma {:induction false} LeafOccurs(e: Expr, p: Place)
    requires !e.Call? && !e.Spawn? && !e.Field?
    ensures p in Places(e) <==> Occurs(e, ExprOf(p))
  {
    OccursItself(e);
    if Occurs(e, ExprOf(p)) && e != ExprOf(p) {
      OccursWhere(e, ExprOf(p));
    }
  }

  lemma {:induction false} FieldOccurs(e: Expr, base: Expr, f: string, p: Place)
    requires e == Field(base, f)
    ensures p in Places(e) <==> Occurs(e, ExprOf(p))
    decreases e, 0
  {
    OccursItself(e);
    if Occurs(e, ExprOf(p)) && e != ExprOf(p) {
      OccursWhere(e, ExprOf(p));
    }
    if !base.Var? {
      PlaceOccurs(base, p);
      if Occurs(base, ExprOf(p)) {
        OccursDeeper(e, base, ExprOf(p));
      }
    }
  }

  lemma {:induction false} ArgumentsOccur(e: Expr, args: seq<Expr>, p: Place)
    requires (e.Call? || e.Spawn?) && e.args == args
    ensures p in Places(e) <==> Occurs(e, ExprOf(p))
    decreases e, 0
  {
    AllPlaces(args, p);
    forall a | a in args ensures p in Places(a) <==> Occurs(a, ExprOf(p)) {
      PlaceOccurs(a, p);
    }
    if Occurs(e, ExprOf(p)) {
      OccursWhere(e, ExprOf(p));
    }
    if a :| a in args && Occurs(a, ExprOf(p)) {
      OccursDeeper(e, a, ExprOf(p));
    }
  }

  /** An expression mentions one field of a variable exactly if that field access occurs in it, and
      the whole variable exactly if the variable occurs other than as the base of a field. */
  lemma {:induction false} PlacesExactly(e: Expr, x: string, f: string)
    ensures Place(x, Some(f)) in Places(e) <==> Occurs(e, Field(Var(x), f))
    ensures Place(x, None) in Places(e) <==> Occurs(e, Var(x))
  {
    PlaceOccurs(e, Place(x, Some(f)));
    PlaceOccurs(e, Place(x, None));
  }

  // ----- in a statement ----------------------------------------------------------------------

  ghost predicate InArguments(args: seq<Expr>, sub: Expr) { exists a :: a in args && Occurs(a, sub) }

  /** The statement uses the value: as an argument of a CALL or SPAWN, as a condition, or as a value
      that is set, discarded, stored (or its offset) or sent. */
  ghost predicate Uses(node: Node, sub: Expr) {
    || (node.CallNode? && InArguments(node.args, sub))
    || (node.SpawnNode? && InArguments(node.args, sub))
    || (node.Assignment? && (node.expr.Call? || node.expr.Spawn?) && InArguments(node.expr.args, sub))
    || (node.Branch? && Occurs(node.condition, sub))
    || ((node.Set? || node.Discard? || node.Store? || node.ChannelSend?) && Occurs(node.value, sub))
    || (node.Store? && node.offset.Some? && Occurs(node.offset.value, sub))
  }

  lemma {:induction false} ArgumentsMention(args: seq<Expr>, p: Place)
    ensures p in PlacesOfAll(args) <==> InArguments(args, ExprOf(p))
  {
    AllPlaces(args, p);
    forall a | a in args ensures p in Places(a) <==> Occurs(a, ExprOf(p)) {
      PlaceOccurs(a, p);
    }
  }

  lemma {:induction false} UsesExactly(node: Node, p: Place)
    ensures p in PlacesOfAll(Sinks(node)) <==> Uses(node, ExprOf(p))
  {
    match node
    case CallNode(_, args, _) => ArgumentsMention(args, p);
    case SpawnNode(args) => ArgumentsMention(args, p);
    case Assignment(_, Call(_, args)) => ArgumentsMention(args, p);
    case Assignment(_, Spawn(_, args)) => ArgumentsMention(args, p);
    case Branch(condition, _, _) => OneExpression(condition, p);
    case Set(_, value) => OneExpression(value, p);
    case Discard(value) => OneExpression(value, p);
    case ChannelSend(value) => OneExpression(value, p);
    case Store(_, value, None) => OneExpression(value, p);
    case Store(_, value, Some(offset)) =>
      OneExpression(value, p);
      OneExpression(offset, p);
      PlacesOfFew(value, offset);
    case _ =>
  }

  lemma {:induction false} OneExpression(e: Expr, p: Place)
    ensures p in PlacesOfAll([e]) <==> Occurs(e, ExprOf(p))
    ensures p in Places(e) <==> Occurs(e, ExprOf(p))
  {
    PlacesOfFew(e, e);
    PlaceOccurs(e, p);
  }

  /** A place is a sink exactly if some statement uses it. */
  lemma {:induction false} SinksExactly(nodes: seq<Node>, p: Place)
    ensures IsSink(nodes, p) <==> exists node :: node in nodes && Uses(node, ExprOf(p))
  {
    forall node ensures p in PlacesOfAll(Sinks(node)) <==> Uses(node, ExprOf(p)) {
      UsesExactly(node, p);
    }
  }

  /** The statement assigns an expression that is no CALL or SPAWN and mentions sub. */
  ghost predicate Assigns(node: Node, target: string, sub: Expr) {
    node.Assignment? && node.target == target && !node.expr.Call? && !node.expr.Spawn? && Occurs(node.expr, sub)
  }

  /** A place is carried on exactly by such an assignment to the variable. */
  lemma {:induction false} CarriesExactly(nodes: seq<Node>, p: Place, q: Place)
    ensures Carries(nodes, p, q) <==> exists node :: node in nodes && Assigns(node, q.base, ExprOf(p))
  {
    forall node | node in nodes
      ensures PassesOn(node) && node.target == q.base && p in Places(node.expr) <==> Assigns(node, q.base, ExprOf(p))
    {
      if node.Assignment? {
        PlaceOccurs(node.expr, p);
      }
    }
    if Carries(nodes, p, q) {
      var node :| node in nodes && PassesOn(node) && node.target == q.base && p in Places(node.expr);
      assert Assigns(node, q.base, ExprOf(p));
    }
  }

  /** Some statement uses or assigns the expression. */
  ghost predicate Mentioned(nodes: seq<Node>, sub: Expr) {
    exists node :: node in nodes && (Uses(node, sub) || (node.Assignment? && Assigns(node, node.target, sub)))
  }

  lemma {:induction false} ReachesSinkIsMentioned(nodes: seq<Node>, p: Place)
    requires ReachesSink(nodes, p)
    ensures Mentioned(nodes, ExprOf(p))
  {
    var c :| Chain(nodes, c) && c[0] == p;
    if |c| == 1 {
      SinksExactly(nodes, p);
    } else {
      assert Carries(nodes, c[0], c[1]);
      CarriesExactly(nodes, p, c[1]);
    }
  }

  // ----- what has to be consumed ----------------------------------------------------------------

  lemma {:induction false} BoundExactly(names: seq<string>, behavior: string, at: nat, ctx: Context, o: Obligation)
    ensures o in Bound(names, behavior, at, ctx) <==>
              exists name :: name in names && name !in ctx.outputs
                          && o == Obligation(Place(name, None), name, behavior, at)
  {
    if names != [] {
      var n := |names| - 1;
      BoundExactly(names[..n], behavior, at, ctx, o);
      assert names == names[..n] + [names[n]];
    }
  }

  /** A CALL statement owes the names it binds, except the composition's own outputs; an assigned
      CALL owes each output of its callee as a field of the target; nothing else owes anything. */
  lemma {:induction false} OwesExactly(node: Node, at: nat, ctx: Context, o: Obligation)
    ensures o in ObligationsOf(node, at, ctx) <==>
              || (node.CallNode?
                  && exists name :: name in node.outputs && name !in ctx.outputs
                                 && o == Obligation(Place(name, None), name, node.behavior, at))
              || (node.Assignment? && node.expr.Call? && node.expr.behavior in ctx.contracts
                  && exists name :: name in ctx.contracts[node.expr.behavior]
                                 && o == Obligation(Place(node.target, Some(name)), node.target + "." + name,
                                                    node.expr.behavior, at))
  {
    if node.CallNode? {
      BoundExactly(node.outputs, node.behavior, at, ctx, o);
    } else if node.Assignment? && node.expr.Call? {
      FieldsExactly(node.target, ContractOutputs(ctx, node.expr.behavior), node.expr.behavior, at, o);
    }
  }

  lemma {:induction false} FieldsExactly(target: string, names: seq<string>, behavior: string, at: nat, o: Obligation)
    ensures o in Fields(target, names, behavior, at) <==>
              exists name :: name in names
                          && o == Obligation(Place(target, Some(name)), target + "." + name, behavior, at)
  {
    var all := Fields(target, names, behavior, at);
    if name :| name in names && o == Obligation(Place(target, Some(name)), target + "." + name, behavior, at) {
      var i :| 0 <= i < |names| && names[i] == name;
      assert all[i] == o;
    }
    if o in all {
      var i :| 0 <= i < |all| && all[i] == o;
      assert names[i] in names;
    }
  }

  /** A CALL statement that binds nothing drops exactly the outputs of its callee. */
  lemma {:induction false} DropsExactly(node: Node, at: nat, ctx: Context, u: Unconsumed)
    ensures u in Dropped(node, at, ctx) <==>
              && node.CallNode? && node.outputs == [] && node.behavior in ctx.contracts
              && u.output in ctx.contracts[node.behavior] && u.behavior == node.behavior && u.at == at
  {
    var all := Dropped(node, at, ctx);
    if u in all {
      var i :| 0 <= i < |all| && all[i] == u;
    }
    if node.CallNode? && node.outputs == [] && node.behavior in ctx.contracts
       && u.output in ctx.contracts[node.behavior] && u.behavior == node.behavior && u.at == at {
      var names := ctx.contracts[node.behavior];
      var i :| 0 <= i < |names| && names[i] == u.output;
      assert all[i] == u;
    }
  }

  lemma {:induction false} SameField(x: string, f: string, g: string)
    requires x + "." + f == x + "." + g
    ensures f == g
  {
    var n := |x| + 1;
    assert (x + "." + f)[n..] == f && (x + "." + g)[n..] == g;
  }

  /** The output g of a CALL assigned to x is reported exactly if no chain carries x.g or x to a
      sink. */
  lemma {:induction false} FieldIsDueExactly(nodes: seq<Node>, ctx: Context, at: nat, g: string)
    requires at < |nodes| && nodes[at].Assignment? && nodes[at].expr.Call?
    requires nodes[at].expr.behavior in ctx.contracts && g in ctx.contracts[nodes[at].expr.behavior]
    ensures var x, behavior := nodes[at].target, nodes[at].expr.behavior;
      Due(nodes, ctx, Unconsumed(behavior, x + "." + g, at)) <==>
        !ReachesSink(nodes, Place(x, Some(g))) && !ReachesSink(nodes, Place(x, None))
  {
    var x, behavior := nodes[at].target, nodes[at].expr.behavior;
    var own, u := Obligation(Place(x, Some(g)), x + "." + g, behavior, at), Unconsumed(behavior, x + "." + g, at);
    OwesExactly(nodes[at], at, ctx, own);
    DropsExactly(nodes[at], at, ctx, u);
    forall o | o in ObligationsOf(nodes[at], at, ctx) && u == Unconsumed(o.behavior, o.display, o.at)
      ensures o == own
    {
      OwesExactly(nodes[at], at, ctx, o);
      SameField(x, g, o.place.field.value);
    }
  }

  /** A name that a CALL binds is reported exactly if no chain carries the whole variable to a sink. */
  lemma {:induction false} NameIsDueExactly(nodes: seq<Node>, ctx: Context, at: nat, x: string)
    requires at < |nodes| && nodes[at].CallNode? && x in nodes[at].outputs && x !in ctx.outputs
    ensures Due(nodes, ctx, Unconsumed(nodes[at].behavior, x, at)) <==> !ReachesSink(nodes, Place(x, None))
  {
    var own, u := Obligation(Place(x, None), x, nodes[at].behavior, at), Unconsumed(nodes[at].behavior, x, at);
    OwesExactly(nodes[at], at, ctx, own);
    DropsExactly(nodes[at], at, ctx, u);
    forall o | o in ObligationsOf(nodes[at], at, ctx) && u == Unconsumed(o.behavior, o.display, o.at)
      ensures o == own
    {
      OwesExactly(nodes[at], at, ctx, o);
    }
  }

  /** So the output g of a CALL assigned to x is reported whenever no statement mentions x.g or the
      whole of x, whatever is mentioned of its other fields. */
  lemma {:induction false} UnmentionedIsDue(nodes: seq<Node>, ctx: Context, at: nat, g: string)
    requires at < |nodes| && nodes[at].Assignment? && nodes[at].expr.Call?
    requires nodes[at].expr.behavior in ctx.contracts && g in ctx.contracts[nodes[at].expr.behavior]
    requires !Mentioned(nodes, Field(Var(nodes[at].target), g)) && !Mentioned(nodes, Var(nodes[at].target))
    ensures Due(nodes, ctx, Unconsumed(nodes[at].expr.behavior, nodes[at].target + "." + g, at))
  {
    var x := nodes[at].target;
    FieldIsDueExactly(nodes, ctx, at, g);
    if ReachesSink(nodes, Place(x, Some(g))) {
      ReachesSinkIsMentioned(nodes, Place(x, Some(g)));
    }
    if ReachesSink(nodes, Place(x, None)) {
      ReachesSinkIsMentioned(nodes, Place(x, None));
    }
  }

  /** And it is not reported if some statement uses x.g or the whole of x. */
  lemma {:induction false} UsedIsNotDue(nodes: seq<Node>, ctx: Context, at: nat, g: string, node: Node)
    requires at < |nodes| && nodes[at].Assignment? && nodes[at].expr.Call?
    requires nodes[at].expr.behavior in ctx.contracts && g in ctx.contracts[nodes[at].expr.behavior]
    requires node in nodes && (Uses(node, Field(Var(nodes[at].target), g)) || Uses(node, Var(nodes[at].target)))
    ensures !Due(nodes, ctx, Unconsumed(nodes[at].expr.behavior, nodes[at].target + "." + g, at))
  {
    var p := Place(nodes[at].target, if Uses(node, Var(nodes[at].target)) then None else Some(g));
    FieldIsDueExactly(nodes, ctx, at, g);
    SinksExactly(nodes, p);
    assert Chain(nodes, [p]);
  }
}
