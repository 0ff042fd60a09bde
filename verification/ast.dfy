/** The Yul syntax tree the analyzer walks (libyul/AST.h is not part of this
    model; the shape here is what the analyzer reads of it). Names and types
    are repository handles; blocks and function definitions carry the
    identity the analysis info keys its maps by. Source locations and debug
    data are left out. */
module Ast {
  import opened Wrappers
  import opened Builtins
  import opened Names

  /** A literal's text as the parser kept it. */
  datatype Hint = Hint(text: string)

  /** LiteralValue: a 256-bit value with an optional hint, or a string too
      long for one word, kept as text. */
  datatype LiteralValue =
    | Limited(number: nat, hint: Option<Hint>)
    | Unlimited(text: string)

  datatype Literal = Literal(kind: LiteralKind, value: LiteralValue, typ: YulName)

  datatype TypedName = TypedName(name: YulName, typ: YulName)

  datatype Expr =
    | Lit(literal: Literal)
    | Ident(name: YulName)
    | Call(callee: YulName, arguments: seq<Expr>)

  datatype Block = Block(id: nat, statements: seq<Stmt>)

  /** A switch case; no value marks the default case. */
  datatype Case = Case(value: Option<Literal>, body: Block)

  datatype Stmt =
    | ExpressionStatement(expression: Expr)
    | Assignment(variableNames: seq<YulName>, value: Expr)
    | VariableDeclaration(variables: seq<TypedName>, initializer: Option<Expr>)
    | FunctionDefinition(id: nat, name: YulName, parameters: seq<TypedName>, returnVariables: seq<TypedName>, body: Block)
    | If(condition: Expr, body: Block)
    | Switch(expression: Expr, cases: seq<Case>)
    | ForLoop(id: nat, pre: Block, condition: Expr, post: Block, body: Block)
    | Break
    | Continue
    | Leave
    | BlockStatement(block: Block)
}
