/**
 * The abstract syntax tree built by the luth-lang parser and walked by the
 * evaluator: statements, expressions, operators and the declared-type tags.
 */
module LuthAst {
  import opened Common

  /** The three primitive type annotations a declaration may carry. */
  datatype Type = String | Int | Boolean

  datatype Operator =
    | Plus
    | Minus
    | Star
    | Slash
    | Percent
    | Pow
    | And
    | Or
    | Not
    | EqualEqual
    | NotEqual
    | LessThan
    | LessThanEqual
    | GreaterThan
    | GreaterThanEqual
      /** Marker the parser puts between the target and the value of `x = e`. */
    | Assign

  /** One `elif condition: branch` arm of an inline if, kept in source order. */
  datatype ElifBranch = ElifBranch(condition: Expression, branch: Expression)

  datatype Expression =
    | StringLiteral(text: string)
    | NumberLiteral(number: real)
    | BooleanLiteral(truth: bool)
    | Identifier(name: string)
    | Binary(left: Expression, operator: Operator, right: Expression)
    | Unary(op: Operator, operand: Expression)
    | Increment(target: Expression)
    | Decrement(target: Expression)
    | InlineIf(condition: Expression, then_branch: Expression,
               elif_branches: seq<ElifBranch>, else_branch: Expression)
    | Nil

  datatype Statement =
    | VariableDeclaration(name: string, value: Expression, value_type: Option<Type>)
    | VariableAssignment(name: string, value: Expression, value_type: Option<Type>)
    | Print(printed: Expression)
    | If(condition: Expression, then_branch: Statement, else_branch: Option<Statement>)
    | While(guard: Expression, body: Statement)
    | Block(statements: seq<Statement>)
}
