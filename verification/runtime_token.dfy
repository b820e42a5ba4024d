/**
 * The token alphabet of the `src/runtime` front end, the generation before
 * luth-lang.
 *
 * It is the set of tokens the scanner of that generation pushes. The token
 * enum beside it declares no operator tokens, although the scanner pushes
 * `+ - * / && || !` and the parser matches the first four; the operators are
 * therefore part of this alphabet.
 */
module RuntimeToken {

  datatype Token =
    | Var
    | Identifier(name: string)
    | Assign
    | StringType
    | IntType
    | BooleanType
    | StringLiteral(text: string)
    | NumberLiteral(number: real)
    | BooleanLiteral(truth: bool)
    | Semicolon
    | Colon
    | Print
    | If
    | Else
    | Plus
    | Minus
    | Star
    | Slash
    | And
    | Or
    | Not
    | LeftParen
    | RightParen
    | EOF
}
