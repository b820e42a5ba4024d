/**
 * The syntax tree of the `src/runtime` front end: four statement forms (no
 * blocks, no `while`), an `if` whose branches are single statements, and an
 * expression tree whose operator set is larger than what its parser builds.
 */
module RuntimeAst {
  import opened Common

  /** The three annotations; this generation declares the type in its parser file. */
  datatype Type = String | Int | Boolean

  datatype Operator =
    | Plus
    | Minus
    | Star
    | Slash
    | Percent
    | Pow
    | And
    | Or
    | Not
    | EqualEqual
    | NotEqual
    | LessThan
    | LessThanEqual
    | GreaterThan
    | GreaterThanEqual

  datatype Expression =
    | StringLiteral(text: string)
    | NumberLiteral(number: real)
    | BooleanLiteral(truth: bool)
    | Identifier(name: string)
    | Binary(left: Expression, operator: Operator, right: Expression)
    | Unary(op: Operator, operand: Expression)

  datatype Statement =
    | VariableDeclaration(name: string, value: Expression, value_type: Option<Type>)
    | VariableAssignment(name: string, value: Expression, value_type: Option<Type>)
    | Print(printed: Expression)
    | If(condition: Expression, then_branch: Statement, else_branch: Option<Statement>)
}
