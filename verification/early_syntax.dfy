/**
 * Tokens and syntax tree of the earliest front end (`src/lexer`, `src/parser`).
 *
 * The files of this generation disagree with each other, and the model takes
 * what the parser uses:
 * - the token enum declares seven tokens, the scanner also pushes `;`, and
 *   the parser also matches `:`, the three type keywords, `print` and the
 *   parentheses; the alphabet here is the union of all three;
 * - the syntax tree file declares two statement forms without annotations,
 *   while the parser builds a `value_type` for both and a `print` statement,
 *   and the interpreter matches all three; the tree here is the one the
 *   parser builds.
 */
module EarlySyntax {
  import opened Common

  datatype Token =
    | Var
    | Identifier(name: string)
    | StringLiteral(text: string)
    | NumberLiteral(number: real)
    | BooleanLiteral(truth: bool)
    | Assign
    | Semicolon
    | Colon
    | StringType
    | IntType
    | BooleanType
    | Print
    | LeftParen
    | RightParen
    | EOF

  /** The three annotations, declared in the parser file. */
  datatype Type = String | Int | Boolean

  /** An expression is a single literal or name. */
  datatype Expression =
    | StringLiteral(text: string)
    | NumberLiteral(number: real)
    | BooleanLiteral(truth: bool)
    | Identifier(name: string)

  datatype Statement =
    | VariableDeclaration(name: string, value: Expression, value_type: Option<Type>)
    | VariableAssignment(name: string, value: Expression, value_type: Option<Type>)
    | Print(printed: Expression)
}
