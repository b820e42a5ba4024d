/**
 * The `src/runtime` recursive-descent parser, the generation before luth-lang.
 *
 * Same shape as the luth-lang parser: cursor-passing functions, failures that
 * leave the cursor where the source leaves it, and out-of-bounds reads as
 * `Panic`. The grammar is smaller: two binary levels with the conventional
 * precedence (`*`/`/` over `+`/`-`), a `unary` level that is only `primary`,
 * primaries that are single literal or name tokens (no parentheses, no `!`),
 * assignments whose value is the bare expression, and `if` branches that are
 * single statements.
 */
module RuntimeParser {
  import opened Common
  import opened RuntimeToken
  import opened RuntimeAst

  /** The cursor never moves backwards, never passes the end, and a panic happens exactly at the end. */
  predicate Within<T>(r: Parsed<T>, toks: seq<Token>, pos: nat) {
    match r
    case Success(_, n) => pos <= n <= |toks|
    case Failure(_, n) => pos <= n <= |toks|
    case Panic(a) => a == |toks|
  }

  /** `Within`, and a success has read at least one token. */
  predicate Consumes<T>(r: Parsed<T>, toks: seq<Token>, pos: nat) {
    Within(r, toks, pos) && (r.Success? ==> pos < r.next)
  }

  /** The binding level of an operator token: 1 for `+`/`-` (term), 2 for `*`/`/` (factor), 0 otherwise. */
  function BindingLevel(t: Token): nat {
    match t
    case Plus => 1
    case Minus => 1
    case Star => 2
    case Slash => 2
    case _ => 0
  }

  /** The four operators `parse_operator` recognises, and the token of each. */
  predicate Parsable(op: Operator) {
    op in {Operator.Plus, Operator.Minus, Operator.Star, Operator.Slash}
  }

  function Spelling(op: Operator): Token
    requires Parsable(op)
  {
    match op
    case Plus => Token.Plus
    case Minus => Token.Minus
    case Star => Token.Star
    case Slash => Token.Slash
  }

  /** Tokens that the statement dispatcher accepts as the start of a statement. */
  predicate StartsStatement(t: Token) {
    t.Var? || t.Identifier? || t.Print? || t.If?
  }

  /** Tokens `primary` accepts: literals and names. */
  predicate Atom(t: Token) {
    t.StringLiteral? || t.NumberLiteral? || t.BooleanLiteral? || t.Identifier?
  }

  /** `parse_type`: consumes one token and accepts only the three type keywords. */
  function ParseType(toks: seq<Token>, pos: nat): (r: Parsed<Type>)
    requires pos <= |toks|
    ensures Within(r, toks, pos)
    ensures r.Success? <==> pos < |toks| && toks[pos] in {Token.StringType, Token.IntType, Token.BooleanType}
    ensures !r.Panic? ==> r.next == pos + 1
    ensures r.Success? ==> ((r.value == Type.String <==> toks[pos] == Token.StringType)
                         && (r.value == Type.Int <==> toks[pos] == Token.IntType))
  {
    if pos == |toks| then Panic(pos)
    else
      match toks[pos]
      case StringType => Success(Type.String, pos + 1)
      case IntType => Success(Type.Int, pos + 1)
      case BooleanType => Success(Type.Boolean, pos + 1)
      case _ => Failure("Unexpected token in type", pos + 1)
  }

  /** `parse_operator`: consumes one token and accepts only `+ - * /`. */
  function ParseOperator(toks: seq<Token>, pos: nat): (r: Parsed<Operator>)
    requires pos <= |toks|
    ensures Within(r, toks, pos)
    ensures !r.Panic? ==> r.next == pos + 1
    ensures r.Success? <==> pos < |toks| && BindingLevel(toks[pos]) > 0
    ensures r.Success? ==> Parsable(r.value) && Spelling(r.value) == toks[pos]
  {
    if pos == |toks| then Panic(pos)
    else
      match toks[pos]
      case Plus => Success(Operator.Plus, pos + 1)
      case Minus => Success(Operator.Minus, pos + 1)
      case Star => Success(Operator.Star, pos + 1)
      case Slash => Success(Operator.Slash, pos + 1)
      case _ => Failure("Unexpected token in operator", pos + 1)
  }

  // ---------------------------------------------------------------- expressions

  /** `expression`: just `term`. */
  function ParseExpression(toks: seq<Token>, pos: nat): (r: Parsed<Expression>)
    requires pos <= |toks|
    ensures Consumes(r, toks, pos)
    ensures r.Success? ==> r.next < |toks| && BindingLevel(toks[r.next]) == 0
    decreases |toks| - pos, 6
  {
    Level(toks, pos, 1)
  }

  /** Binary level `k` (1 term, 2 factor): operands of the next level folded from the left. */
  function Level(toks: seq<Token>, pos: nat, k: nat): (r: Parsed<Expression>)
    requires pos <= |toks| && 1 <= k <= 2
    ensures Consumes(r, toks, pos)
    ensures r.Success? ==> r.next < |toks| && BindingLevel(toks[r.next]) < k
    decreases |toks| - pos, 2 * (3 - k) + 1
  {
    var first := Operand(toks, pos, k);
    if !first.Success? then Fail(first)
    else LevelLoop(toks, first.value, first.next, k)
  }

  /** The operand of level `k`: the factor level below `term`, `unary` (that is, `primary`) below `factor`. */
  function Operand(toks: seq<Token>, pos: nat, k: nat): (r: Parsed<Expression>)
    requires pos <= |toks| && 1 <= k <= 2
    ensures Consumes(r, toks, pos)
    ensures r.Success? && k == 1 ==> r.next < |toks| && BindingLevel(toks[r.next]) < 2
    decreases |toks| - pos, 2 * (3 - k)
  {
    if k == 2 then ParseUnary(toks, pos) else Level(toks, pos, k + 1)
  }

  /** The `while` loop of level `k`: as long as the next token is an operator of this level, fold one more operand. */
  function LevelLoop(toks: seq<Token>, left: Expression, pos: nat, k: nat): (r: Parsed<Expression>)
    requires pos <= |toks| && 1 <= k <= 2
    ensures Within(r, toks, pos)
    ensures r.Success? ==> r.next < |toks| && BindingLevel(toks[r.next]) != k
    ensures r.Success? && BindingLevel(toks[r.next]) > k ==> r.next == pos
    ensures r.Success? && r.next == pos ==> r.value == left
    decreases |toks| - pos, 0
  {
    if pos == |toks| then Panic(pos)
    else if BindingLevel(toks[pos]) != k then Success(left, pos)
    else
      var op := ParseOperator(toks, pos);
      var after: nat := pos + 1;
      // The operator token was just peeked, so this propagation cannot happen.
      if !op.Success? then Failure("Unexpected token in operator", after)
      else
        var right := Operand(toks, op.next, k);
        if !right.Success? then Fail(right)
        else LevelLoop(toks, Binary(left, op.value, right.value), right.next, k)
  }

  /** `unary`: only `primary`; there is no prefix operator. */
  function ParseUnary(toks: seq<Token>, pos: nat): (r: Parsed<Expression>)
    requires pos <= |toks|
    ensures Consumes(r, toks, pos)
    ensures r == ParsePrimary(toks, pos)
    decreases |toks| - pos, 1
  {
    ParsePrimary(toks, pos)
  }

  /** `primary`: exactly one literal or name token. */
  function ParsePrimary(toks: seq<Token>, pos: nat): (r: Parsed<Expression>)
    requires pos <= |toks|
    ensures Consumes(r, toks, pos)
    ensures r.Success? <==> pos < |toks| && Atom(toks[pos])
    ensures r.Success? ==> r.next == pos + 1
    ensures r.Failure? ==> r.next == pos && r.msg == "Unexpected token in expression"
    decreases |toks| - pos, 0
  {
    if pos == |toks| then Panic(pos)
    else
      match toks[pos]
      case StringLiteral(s) => Success(Expression.StringLiteral(s), pos + 1)
      case NumberLiteral(n) => Success(Expression.NumberLiteral(n), pos + 1)
      case BooleanLiteral(b) => Success(Expression.BooleanLiteral(b), pos + 1)
      case Identifier(id) => Success(Expression.Identifier(id), pos + 1)
      case _ => Failure("Unexpected token in expression", pos)
  }

  // ----------------------------------------------------------------- statements

  /** `statement`: dispatch on the next token without consuming it; any other token is an error at the same cursor. */
  function ParseStatement(toks: seq<Token>, pos: nat): (r: Parsed<Statement>)
    requires pos <= |toks|
    ensures Consumes(r, toks, pos)
    ensures r.Failure? ==> (r.next == pos <==> pos < |toks| && !StartsStatement(toks[pos]))
    decreases |toks| - pos, 1
  {
    if pos == |toks| then Panic(pos)
    else
      match toks[pos]
      case Var => ParseVariableDeclaration(toks, pos)
      case Identifier(_) => ParseVariableAssignment(toks, pos)
      case Print => ParsePrintStatement(toks, pos)
      case If => ParseIfStatement(toks, pos)
      case _ => Failure("Unexpected token in statement", pos)
  }

  /** `variable_declaration`: `var NAME (: TYPE)? = expression ;`. */
  function ParseVariableDeclaration(toks: seq<Token>, pos: nat): (r: Parsed<Statement>)
    requires pos <= |toks|
    ensures Within(r, toks, pos)
    ensures !r.Panic? ==> pos < r.next
    ensures r.Success? ==> (r.value.VariableDeclaration?
                         && r.next >= pos + 5 && toks[pos + 1] == Token.Identifier(r.value.name)
                         && (r.value.value_type.Some? <==> toks[pos + 2] == Token.Colon)
                         && toks[r.next - 1] == Token.Semicolon)
  {
    if pos == |toks| || pos + 1 == |toks| then Panic(|toks|)
    else if !toks[pos + 1].Identifier? then Failure("Expected variable name", pos + 2)
    else
      var name := toks[pos + 1].name;
      var p := pos + 2;
      if p == |toks| then Panic(p)
      else
        var ty: Parsed<Option<Type>> :=
          if toks[p] == Token.Colon then
            var t := ParseType(toks, p + 1);
            if t.Success? then Success(Some(t.value), t.next) else Fail(t)
          else Success(None, p);
        if !ty.Success? then Fail(ty)
        else if ty.next == |toks| then Panic(ty.next)
        else if toks[ty.next] != Token.Assign then Failure("Invalid variable declaration", ty.next + 1)
        else
          var value := ParseExpression(toks, ty.next + 1);
          if !value.Success? then Fail(value)
          else if toks[value.next] != Token.Semicolon then Failure("Invalid variable declaration", value.next + 1)
          else Success(VariableDeclaration(name, value.value, ty.value), value.next + 1)
  }

  /** `variable_assignment`: `NAME = expression ;`, the value stored as parsed. */
  function ParseVariableAssignment(toks: seq<Token>, pos: nat): (r: Parsed<Statement>)
    requires pos <= |toks|
    ensures Within(r, toks, pos)
    ensures !r.Panic? ==> pos < r.next
    ensures r.Success? ==> (r.value.VariableAssignment? && r.value.value_type.None? && r.next >= pos + 4
                         && toks[pos] == Token.Identifier(r.value.name) && toks[pos + 1] == Token.Assign
                         && toks[r.next - 1] == Token.Semicolon)
  {
    if pos == |toks| then Panic(pos)
    else if !toks[pos].Identifier? then Failure("Expected variable name", pos + 1)
    else if pos + 1 == |toks| then Panic(pos + 1)
    else if toks[pos + 1] != Token.Assign then Failure("Invalid variable assignment", pos + 2)
    else
      var value := ParseExpression(toks, pos + 2);
      if !value.Success? then Fail(value)
      else if toks[value.next] != Token.Semicolon then Failure("Invalid variable assignment", value.next + 1)
      else Success(VariableAssignment(toks[pos].name, value.value, None), value.next + 1)
  }

  /** `print_statement`: `print ( expression ) ;`. */
  function ParsePrintStatement(toks: seq<Token>, pos: nat): (r: Parsed<Statement>)
    requires pos <= |toks|
    ensures Within(r, toks, pos)
    ensures !r.Panic? ==> pos < r.next
    ensures r.Success? ==> (r.value.Print? && r.next >= pos + 5 && toks[pos + 1] == Token.LeftParen
                         && toks[r.next - 2] == Token.RightParen && toks[r.next - 1] == Token.Semicolon)
  {
    if pos == |toks| || pos + 1 == |toks| then Panic(|toks|)
    else if toks[pos + 1] != Token.LeftParen then Failure("Invalid print statement", pos + 1)
    else
      var value := ParseExpression(toks, pos + 2);
      if !value.Success? then Fail(value)
      else if toks[value.next] != Token.RightParen then Failure("Invalid print statement", value.next)
      else if value.next + 1 == |toks| then Panic(value.next + 1)
      else if toks[value.next + 1] != Token.Semicolon then Failure("Invalid print statement", value.next + 1)
      else Success(Statement.Print(value.value), value.next + 2)
  }

  /** `if_statement`: `if expression statement (else statement)?`; looking for `else` reads one token past the then-branch. */
  function ParseIfStatement(toks: seq<Token>, pos: nat): (r: Parsed<Statement>)
    requires pos <= |toks|
    ensures Within(r, toks, pos)
    ensures !r.Panic? ==> pos < r.next
    ensures r.Success? ==> r.value.If?
    decreases |toks| - pos, 0
  {
    if pos == |toks| then Panic(pos)
    else
      var cond := ParseExpression(toks, pos + 1);
      if !cond.Success? then Fail(cond)
      else
        var thn := ParseStatement(toks, cond.next);
        if !thn.Success? then Fail(thn)
        else if thn.next == |toks| then Panic(thn.next)
        else if toks[thn.next] == Token.Else then
          var els := ParseStatement(toks, thn.next + 1);
          if !els.Success? then Fail(els)
          else Success(Statement.If(cond.value, thn.value, Some(els.value)), els.next)
        else Success(Statement.If(cond.value, thn.value, None), thn.next)
  }

  // --------------------------------------------------------------- the top level

  /** What the top-level `parse` does: returns its `Result`, loops forever, or panics. */
  datatype ParseOutcome =
    | Returned(result: Result<seq<Statement>>)
    | Diverges(at: nat)
    | Panics(at: nat)

  /**
   * The loop of `parse` from cursor `pos`, having kept `acc`: a statement that
   * fails is dropped and the loop resumes where the cursor stopped, and a
   * failure that did not move the cursor repeats forever.
   */
  function ParseFrom(toks: seq<Token>, pos: nat, acc: seq<Statement>): (r: ParseOutcome)
    requires pos <= |toks|
    ensures r.Returned? ==> r.result.Ok? && |acc| <= |r.result.value| && r.result.value[..|acc|] == acc
    ensures r.Diverges? ==> pos <= r.at < |toks| && !StartsStatement(toks[r.at])
    ensures r.Panics? ==> r.at == |toks|
    decreases |toks| - pos
  {
    if pos == |toks| then Returned(Ok(acc))
    else
      match ParseStatement(toks, pos)
      case Success(s, n) => ParseFrom(toks, n, acc + [s])
      case Failure(_, n) => if n == pos then Diverges(pos) else ParseFrom(toks, n, acc)
      case Panic(a) => Panics(a)
  }

  /** `parse`: the whole token sequence from the first token. */
  function Parse(toks: seq<Token>): (r: ParseOutcome)
    ensures r.Returned? ==> r.result.Ok?
    ensures r.Diverges? ==> r.at < |toks| && !StartsStatement(toks[r.at])
  {
    ParseFrom(toks, 0, [])
  }
}
