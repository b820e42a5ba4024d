/**
 * The earliest recursive-descent parser (`src/parser`).
 *
 * Every parsing function returns an `Option`: there are no error messages,
 * only a statement or nothing. As in the later parsers the cursor is passed
 * along, a function that gives up leaves it where the source leaves it, and
 * reading past the last token is a panic.
 */
module EarlyParser {
  import opened Common
  import opened EarlySyntax

  /** One parsing function's outcome: a value and the cursor after it, `None` and the cursor where it stopped, or an out-of-bounds read. */
  datatype Step<+T> =
    | Found(value: T, next: nat)
    | NotFound(next: nat)
    | Crash(at: nat)

  /** The cursor never moves backwards, never passes the end, and a panic happens exactly at the end. */
  predicate Within<T>(r: Step<T>, toks: seq<Token>, pos: nat) {
    match r
    case Found(_, n) => pos <= n <= |toks|
    case NotFound(n) => pos <= n <= |toks|
    case Crash(a) => a == |toks|
  }

  /** Tokens that start a statement: `var`, a name, `print`. */
  predicate StartsStatement(t: Token) {
    t.Var? || t.Identifier? || t.Print?
  }

  /** Tokens that are a whole expression: literals and names. */
  predicate Atom(t: Token) {
    t.StringLiteral? || t.NumberLiteral? || t.BooleanLiteral? || t.Identifier?
  }

  /** The expression a literal or name token stands for. */
  function AtomValue(t: Token): Expression
    requires Atom(t)
  {
    match t
    case StringLiteral(s) => Expression.StringLiteral(s)
    case NumberLiteral(n) => Expression.NumberLiteral(n)
    case BooleanLiteral(b) => Expression.BooleanLiteral(b)
    case Identifier(x) => Expression.Identifier(x)
  }

  /** `expression`: one literal or name token; anything else is `None` without consuming. */
  function ParseExpression(toks: seq<Token>, pos: nat): (r: Step<Expression>)
    requires pos <= |toks|
    ensures Within(r, toks, pos)
    ensures r.Found? <==> pos < |toks| && Atom(toks[pos])
    ensures r.Found? ==> r.next == pos + 1 && r.value == AtomValue(toks[pos])
    ensures r.NotFound? ==> r.next == pos
  {
    if pos == |toks| then Crash(pos)
    else
      match toks[pos]
      case StringLiteral(s) => Found(Expression.StringLiteral(s), pos + 1)
      case NumberLiteral(n) => Found(Expression.NumberLiteral(n), pos + 1)
      case BooleanLiteral(b) => Found(Expression.BooleanLiteral(b), pos + 1)
      case Identifier(x) => Found(Expression.Identifier(x), pos + 1)
      case _ => NotFound(pos)
  }

  /** The annotation a type keyword spells, if it is one. */
  function TypeOf(t: Token): (r: Option<Type>)
    ensures r.Some? <==> t in {Token.StringType, Token.IntType, Token.BooleanType}
  {
    match t
    case StringType => Some(Type.String)
    case IntType => Some(Type.Int)
    case BooleanType => Some(Type.Boolean)
    case _ => None
  }

  /** `statement`: dispatch on the next token without consuming it; any other token gives `None` at the same cursor. */
  function ParseStatement(toks: seq<Token>, pos: nat): (r: Step<Statement>)
    requires pos <= |toks|
    ensures Within(r, toks, pos)
    ensures r.Found? ==> pos < r.next
    ensures r.NotFound? ==> (r.next == pos <==> pos < |toks| && !StartsStatement(toks[pos]))
  {
    if pos == |toks| then Crash(pos)
    else
      match toks[pos]
      case Var => ParseVariableDeclaration(toks, pos)
      case Identifier(_) => ParseVariableAssignment(toks, pos)
      case Print => ParsePrintStatement(toks, pos)
      case _ => NotFound(pos)
  }

  /**
   * `variable_declaration`: `var NAME (: TYPE)? = expression ;`. Every
   * `advance` reads one token whatever it is, so a wrong token is consumed
   * before the declaration gives up.
   */
  function ParseVariableDeclaration(toks: seq<Token>, pos: nat): (r: Step<Statement>)
    requires pos <= |toks|
    ensures Within(r, toks, pos)
    ensures !r.Crash? ==> pos < r.next
    ensures r.Found? ==> (r.value.VariableDeclaration?
                       && r.next >= pos + 5 && toks[pos + 1] == Token.Identifier(r.value.name)
                       && (r.value.value_type.Some? <==> toks[pos + 2] == Token.Colon)
                       && (r.value.value_type.Some? ==> r.value.value_type == TypeOf(toks[pos + 3]))
                       && toks[r.next - 3] == Token.Assign
                       && Atom(toks[r.next - 2]) && r.value.value == AtomValue(toks[r.next - 2])
                       && toks[r.next - 1] == Token.Semicolon)
  {
    if pos == |toks| || pos + 1 == |toks| then Crash(|toks|)
    else if !toks[pos + 1].Identifier? then NotFound(pos + 2)
    else
      var name := toks[pos + 1].name;
      var p := pos + 2;
      if p == |toks| then Crash(p)
      else if toks[p] == Token.Colon && p + 1 == |toks| then Crash(p + 1)
      else if toks[p] == Token.Colon && TypeOf(toks[p + 1]).None? then NotFound(p + 2)
      else
        var ty := if toks[p] == Token.Colon then TypeOf(toks[p + 1]) else None;
        var t := if toks[p] == Token.Colon then p + 2 else p;
        if t == |toks| then Crash(t)
        else if toks[t] != Token.Assign then NotFound(t + 1)
        else
          var value := ParseExpression(toks, t + 1);
          if value.Crash? then Crash(value.at)
          else if value.NotFound? then NotFound(value.next)
          else if value.next == |toks| then Crash(value.next)
          else if toks[value.next] != Token.Semicolon then NotFound(value.next + 1)
          else Found(VariableDeclaration(name, value.value, ty), value.next + 1)
  }

  /** `variable_assignment`: `NAME = expression ;`, with no annotation. */
  function ParseVariableAssignment(toks: seq<Token>, pos: nat): (r: Step<Statement>)
    requires pos <= |toks|
    ensures Within(r, toks, pos)
    ensures !r.Crash? ==> pos < r.next
    ensures r.Found? ==> (r.value.VariableAssignment? && r.value.value_type.None? && r.next == pos + 4
                       && toks[pos] == Token.Identifier(r.value.name) && toks[pos + 1] == Token.Assign
                       && Atom(toks[pos + 2]) && r.value.value == AtomValue(toks[pos + 2])
                       && toks[pos + 3] == Token.Semicolon)
  {
    if pos == |toks| then Crash(pos)
    else if !toks[pos].Identifier? then NotFound(pos + 1)
    else if pos + 1 == |toks| then Crash(pos + 1)
    else if toks[pos + 1] != Token.Assign then NotFound(pos + 2)
    else
      var value := ParseExpression(toks, pos + 2);
      if value.Crash? then Crash(value.at)
      else if value.NotFound? then NotFound(value.next)
      else if value.next == |toks| then Crash(value.next)
      else if toks[value.next] != Token.Semicolon then NotFound(value.next + 1)
      else Found(VariableAssignment(toks[pos].name, value.value, None), value.next + 1)
  }

  /** `print_statement`: `print ( expression ) ;`; a wrong token after `print` is only peeked at. */
  function ParsePrintStatement(toks: seq<Token>, pos: nat): (r: Step<Statement>)
    requires pos <= |toks|
    ensures Within(r, toks, pos)
    ensures !r.Crash? ==> pos < r.next
    ensures r.Found? ==> (r.next == pos + 5 && toks[pos + 1] == Token.LeftParen
                       && Atom(toks[pos + 2]) && r.value == Statement.Print(AtomValue(toks[pos + 2]))
                       && toks[pos + 3] == Token.RightParen && toks[pos + 4] == Token.Semicolon)
  {
    if pos == |toks| || pos + 1 == |toks| then Crash(|toks|)
    else if toks[pos + 1] != Token.LeftParen then NotFound(pos + 1)
    else
      var value := ParseExpression(toks, pos + 2);
      if value.Crash? then Crash(value.at)
      else if value.NotFound? then NotFound(value.next)
      else if value.next == |toks| then Crash(value.next)
      else if toks[value.next] != Token.RightParen then NotFound(value.next)
      else if value.next + 1 == |toks| then Crash(value.next + 1)
      else if toks[value.next + 1] != Token.Semicolon then NotFound(value.next + 1)
      else Found(Statement.Print(value.value), value.next + 2)
  }

  // --------------------------------------------------------------- the top level

  /** What the top-level `parse` does: returns its `Result`, loops forever, or panics. */
  datatype ParseOutcome =
    | Returned(result: Result<seq<Statement>>)
    | Diverges(at: nat)
    | Panics(at: nat)

  /**
   * The loop of `parse` from cursor `pos`, having kept `acc`: a `None` is
   * dropped and the loop resumes where the cursor stopped, and a `None` that
   * did not move the cursor repeats forever.
   */
  function ParseFrom(toks: seq<Token>, pos: nat, acc: seq<Statement>): (r: ParseOutcome)
    requires pos <= |toks|
    ensures r.Returned? ==> r.result.Ok? && |acc| <= |r.result.value| && r.result.value[..|acc|] == acc
    ensures r.Diverges? ==> pos <= r.at < |toks| && !StartsStatement(toks[r.at])
    ensures r.Panics? ==> r.at == |toks|
    decreases |toks| - pos
  {
    if pos == |toks| then Returned(Ok(acc))
    else
      match ParseStatement(toks, pos)
      case Found(s, n) => ParseFrom(toks, n, acc + [s])
      case NotFound(n) => if n == pos then Diverges(pos) else ParseFrom(toks, n, acc)
      case Crash(a) => Panics(a)
  }

  /** `parse`: the whole token sequence from the first token. */
  function Parse(toks: seq<Token>): (r: ParseOutcome)
    ensures r.Returned? ==> r.result.Ok?
    ensures r.Diverges? ==> r.at < |toks| && !StartsStatement(toks[r.at])
  {
    ParseFrom(toks, 0, [])
  }
}
