/**
 * The token alphabet of the luth-lang front end.
 *
 * The scanner itself (regular expressions over the source text) is not part of
 * this model; what is kept is the closed set of tokens it hands to the parser,
 * and the last step of the scanner, which turns each recognised lexeme into at
 * most one parser token.
 */
module LuthToken {
  import opened Common

  /** The tokens the parser consumes; number payloads are modelled as `real`. */
  datatype Token =
    | Var
    | Identifier(name: string)
    | Assign
    | StringType
    | IntType
    | BooleanType
    | StringLiteral(text: string)
    | NumberLiteral(number: real)
    | BooleanLiteral(truth: bool)
    | Semicolon
    | Colon
    | Print
    | If
    | Else
    | Elif
    | While
    | Plus
    | Minus
    | Star
    | Slash
    | Percent
    | Pow
    | And
    | Or
    | Not
    | EqualEqual
    | NotEqual
    | LessThan
    | LessThanEqual
    | GreaterThan
    | GreaterThanEqual
    | Increment
    | Decrement
    | LeftParen
    | RightParen
    | LeftBrace
    | RightBrace
    | EOF

  /**
   * What the scanner recognises before the parser tokens are produced: the
   * skipped kinds, the keyword spellings `and`/`AND` and `or`/`OR`, and
   * `Unrecognized` for input no rule matches.
   */
  datatype Lexeme =
    | Whitespace
    | LineComment
    | BlockComment
    | VarKeyword
    | StringTypeKeyword
    | IntTypeKeyword
    | BoolTypeKeyword
    | Name(name: string)
    | StringText(text: string)
    | NumberText(number: real)
    | BooleanText(truth: bool)
    | AssignSign
    | SemicolonSign
    | ColonSign
    | PrintKeyword
    | PlusSign
    | MinusSign
    | StarSign
    | SlashSign
    | PercentSign
    | PowSign
    | AndSign
    | OrSign
    | NotSign
    | AndWord
    | OrWord
    | EqualEqualSign
    | NotEqualSign
    | LessThanSign
    | LessThanEqualSign
    | GreaterThanSign
    | GreaterThanEqualSign
    | IncrementSign
    | DecrementSign
    | LeftParenSign
    | RightParenSign
    | LeftBraceSign
    | RightBraceSign
    | IfKeyword
    | ElseKeyword
    | ElifKeyword
    | WhileKeyword
    | EndOfInput
    | Unrecognized

  /** The lexemes the scanner drops instead of handing them on. */
  predicate Skipped(l: Lexeme) {
    l.Whitespace? || l.LineComment? || l.BlockComment? || l.Unrecognized?
  }

  /** The token (if any) the scanner emits for one lexeme. */
  function Emit(l: Lexeme): (r: Option<Token>)
    ensures r.None? <==> Skipped(l)
  {
    match l
    case Whitespace => None
    case LineComment => None
    case BlockComment => None
    case Unrecognized => None
    case VarKeyword => Some(Token.Var)
    case Name(n) => Some(Token.Identifier(n))
    case AssignSign => Some(Token.Assign)
    case StringTypeKeyword => Some(Token.StringType)
    case IntTypeKeyword => Some(Token.IntType)
    case BoolTypeKeyword => Some(Token.BooleanType)
    case StringText(s) => Some(Token.StringLiteral(s))
    case NumberText(n) => Some(Token.NumberLiteral(n))
    case BooleanText(b) => Some(Token.BooleanLiteral(b))
    case SemicolonSign => Some(Token.Semicolon)
    case ColonSign => Some(Token.Colon)
    case PrintKeyword => Some(Token.Print)
    case IfKeyword => Some(Token.If)
    case ElseKeyword => Some(Token.Else)
    case ElifKeyword => Some(Token.Elif)
    case WhileKeyword => Some(Token.While)
    case PlusSign => Some(Token.Plus)
    case MinusSign => Some(Token.Minus)
    case StarSign => Some(Token.Star)
    case SlashSign => Some(Token.Slash)
    case PercentSign => Some(Token.Percent)
    case PowSign => Some(Token.Pow)
    case AndSign => Some(Token.And)
    case OrSign => Some(Token.Or)
    case NotSign => Some(Token.Not)
    case AndWord => Some(Token.And)
    case OrWord => Some(Token.Or)
    case EqualEqualSign => Some(Token.EqualEqual)
    case NotEqualSign => Some(Token.NotEqual)
    case LessThanSign => Some(Token.LessThan)
    case LessThanEqualSign => Some(Token.LessThanEqual)
    case GreaterThanSign => Some(Token.GreaterThan)
    case GreaterThanEqualSign => Some(Token.GreaterThanEqual)
    case IncrementSign => Some(Token.Increment)
    case DecrementSign => Some(Token.Decrement)
    case LeftParenSign => Some(Token.LeftParen)
    case RightParenSign => Some(Token.RightParen)
    case LeftBraceSign => Some(Token.LeftBrace)
    case RightBraceSign => Some(Token.RightBrace)
    case EndOfInput => Some(Token.EOF)
  }

  /** The scanner's output loop: emitted tokens in lexeme order, skipped lexemes dropped. */
  function Tokens(ls: seq<Lexeme>): (r: seq<Token>)
    ensures |r| <= |ls|
    ensures (forall i :: 0 <= i < |ls| ==> !Skipped(ls[i])) ==> |r| == |ls|
  {
    if ls == [] then []
    else
      match Emit(ls[0])
      case None => Tokens(ls[1..])
      case Some(t) => [t] + Tokens(ls[1..])
  }

  /** The word spellings of the logical operators become the same tokens as `&&` and `||`. */
  lemma WordOperatorsCollapse()
    ensures Emit(AndWord) == Emit(AndSign) == Some(Token.And)
    ensures Emit(OrWord) == Emit(OrSign) == Some(Token.Or)
  {
  }

  /** Scanning distributes over concatenation: the token stream keeps lexeme order. */
  lemma {:induction false} TokensAppend(a: seq<Lexeme>, b: seq<Lexeme>)
    ensures Tokens(a + b) == Tokens(a) + Tokens(b)
  {
    if a == [] {
      assert a + b == b;
    } else {
      assert (a + b)[0] == a[0];
      assert (a + b)[1..] == a[1..] + b;
      TokensAppend(a[1..], b);
    }
  }
}
