/** The part of compiler/src/ast.rs that the analyses look at.  Primitive operations,
    literals and waits are one constructor each: no analysis here looks inside them. */
module Ast {
  import opened Common

  datatype Expr =
    | Literal
    | Var(name: string)
    | Field(base: Expr, field: string)
    | Call(behavior: string, args: seq<Expr>)
    | Spawn(pattern: string, args: seq<Expr>)
    | Alloc
    | Primitive(operands: seq<Expr>)

  datatype Node =
    | Assignment(target: string, expr: Expr)
    | Label(name: string)
    | Branch(condition: Expr, onTrue: string, onFalse: string)
    | Jump(to: string)
    | Set(target: string, value: Expr)
    | Discard(value: Expr)
    | Store(target: string, value: Expr, offset: Option<Expr>)
    | Free(name: string)
    | SpawnNode(args: seq<Expr>)
    | ChannelSend(value: Expr)
    | CallNode(behavior: string, args: seq<Expr>, outputs: seq<string>)
    | Other // WAIT, WAIT_ALL, WAIT_ANY, CHANNEL_CLOSE
}
