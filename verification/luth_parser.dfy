/**
 * The luth-lang recursive-descent parser.
 *
 * Every parsing function takes the token sequence and the cursor and returns
 * the new cursor with its result, so the position at which a failure leaves the
 * cursor is part of the model: the top-level loop resumes from exactly there.
 * Reading a token at or past the end of the sequence is an out-of-bounds index
 * in the source, modelled as the `Panic` outcome.
 *
 * The four binary precedence levels (comparison, additive, multiplicative,
 * logical) are one function `Level` indexed by `k`, each level folding the
 * operands of the next tighter level from the left: the source's `comparison`,
 * `term`, `factor` and `logical` are levels 1 to 4.
 */
module LuthParser {
  import opened Common
  import opened LuthToken
  import opened LuthAst

  /** The cursor never moves backwards, never passes the end, and a panic happens exactly at the end. */
  predicate Within<T>(r: Parsed<T>, toks: seq<Token>, pos: nat) {
    match r
    case Success(_, n) => pos <= n <= |toks|
    case Failure(_, n) => pos <= n <= |toks|
    case Panic(a) => a == |toks|
  }

  /** `Within`, and a success has read at least one token. */
  predicate Consumes<T>(r: Parsed<T>, toks: seq<Token>, pos: nat) {
    Within(r, toks, pos) && (r.Success? ==> pos < r.next)
  }

  /** The binding level of a binary operator token: 1 comparison, 2 additive, 3 multiplicative, 4 logical; 0 for every other token. */
  function BindingLevel(t: Token): nat {
    match t
    case EqualEqual => 1
    case NotEqual => 1
    case LessThan => 1
    case LessThanEqual => 1
    case GreaterThan => 1
    case GreaterThanEqual => 1
    case Plus => 2
    case Minus => 2
    case Star => 3
    case Slash => 3
    case Percent => 3
    case Pow => 3
    case And => 4
    case Or => 4
    case _ => 0
  }

  /** The token that spells an operator; `Assign` has none that `ParseOperator` accepts. */
  function Spelling(op: Operator): Token
    requires op != Operator.Assign
  {
    match op
    case Plus => Token.Plus
    case Minus => Token.Minus
    case Star => Token.Star
    case Slash => Token.Slash
    case Percent => Token.Percent
    case Pow => Token.Pow
    case And => Token.And
    case Or => Token.Or
    case Not => Token.Not
    case EqualEqual => Token.EqualEqual
    case NotEqual => Token.NotEqual
    case LessThan => Token.LessThan
    case LessThanEqual => Token.LessThanEqual
    case GreaterThan => Token.GreaterThan
    case GreaterThanEqual => Token.GreaterThanEqual
  }

  /** Tokens that the statement dispatcher accepts as the start of a statement. */
  predicate StartsStatement(t: Token) {
    t.Var? || t.Identifier? || t.Print? || t.If? || t.While?
  }

  /** `parse_type`: consumes one token and accepts only the three type keywords. */
  function ParseType(toks: seq<Token>, pos: nat): (r: Parsed<Type>)
    requires pos <= |toks|
    ensures Within(r, toks, pos)
    ensures r.Success? <==> pos < |toks| && toks[pos] in {Token.StringType, Token.IntType, Token.BooleanType}
    ensures !r.Panic? ==> r.next == pos + 1
    ensures r.Success? ==> ((r.value == Type.String <==> toks[pos] == Token.StringType)
                         && (r.value == Type.Int <==> toks[pos] == Token.IntType))
  {
    if pos == |toks| then Panic(pos)
    else
      match toks[pos]
      case StringType => Success(Type.String, pos + 1)
      case IntType => Success(Type.Int, pos + 1)
      case BooleanType => Success(Type.Boolean, pos + 1)
      case _ => Failure("Unexpected token in type", pos + 1)
  }

  /** `parse_operator`: consumes one token and maps every operator token except `=` to its operator. */
  function ParseOperator(toks: seq<Token>, pos: nat): (r: Parsed<Operator>)
    requires pos <= |toks|
    ensures Within(r, toks, pos)
    ensures !r.Panic? ==> r.next == pos + 1
    ensures r.Success? <==> pos < |toks| && (BindingLevel(toks[pos]) > 0 || toks[pos] == Token.Not)
    ensures r.Success? ==> r.value != Operator.Assign && Spelling(r.value) == toks[pos]
  {
    if pos == |toks| then Panic(pos)
    else
      match toks[pos]
      case Plus => Success(Operator.Plus, pos + 1)
      case Minus => Success(Operator.Minus, pos + 1)
      case Star => Success(Operator.Star, pos + 1)
      case Slash => Success(Operator.Slash, pos + 1)
      case Percent => Success(Operator.Percent, pos + 1)
      case Pow => Success(Operator.Pow, pos + 1)
      case And => Success(Operator.And, pos + 1)
      case Or => Success(Operator.Or, pos + 1)
      case Not => Success(Operator.Not, pos + 1)
      case EqualEqual => Success(Operator.EqualEqual, pos + 1)
      case NotEqual => Success(Operator.NotEqual, pos + 1)
      case LessThan => Success(Operator.LessThan, pos + 1)
      case LessThanEqual => Success(Operator.LessThanEqual, pos + 1)
      case GreaterThan => Success(Operator.GreaterThan, pos + 1)
      case GreaterThanEqual => Success(Operator.GreaterThanEqual, pos + 1)
      case _ => Failure("Unexpected token in operator", pos + 1)
  }

  // ---------------------------------------------------------------- expressions

  /** `expression`: the inline-if form exactly when the next token is `if`, otherwise a comparison. */
  function ParseExpression(toks: seq<Token>, pos: nat): (r: Parsed<Expression>)
    requires pos <= |toks|
    ensures Consumes(r, toks, pos)
    ensures r.Success? ==> r.next < |toks|
    decreases |toks| - pos, 12
  {
    if pos == |toks| then Panic(pos)
    else if toks[pos] == Token.If then ParseInlineIf(toks, pos)
    else Level(toks, pos, 1)
  }

  /** `inline_if`: `if c : e (elif c : e)* (else : e)?`, with `Nil` for a missing else. */
  function ParseInlineIf(toks: seq<Token>, pos: nat): (r: Parsed<Expression>)
    requires pos <= |toks|
    ensures Consumes(r, toks, pos)
    ensures r.Success? ==> r.next < |toks| && r.value.InlineIf?
    decreases |toks| - pos, 11
  {
    if pos == |toks| then Panic(pos)
    else
      var cond := ParseExpression(toks, pos + 1);
      if !cond.Success? then Fail(cond)
      else if toks[cond.next] != Token.Colon then Failure("Expected ':' after if condition", cond.next)
      else
        var thn := ParseExpression(toks, cond.next + 1);
        if !thn.Success? then Fail(thn)
        else
          var elifs := ParseElifs(toks, thn.next, []);
          if !elifs.Success? then Fail(elifs)
          else
            var q := elifs.next;
            if toks[q] != Token.Else then
              Success(InlineIf(cond.value, thn.value, elifs.value, Nil), q)
            else if q + 1 == |toks| then Panic(q + 1)
            else if toks[q + 1] != Token.Colon then Failure("Expected ':' after else", q + 1)
            else
              var els := ParseExpression(toks, q + 2);
              if !els.Success? then Fail(els)
              else Success(InlineIf(cond.value, thn.value, elifs.value, els.value), els.next)
  }

  /** The `elif` loop of `inline_if`: collects (condition, branch) pairs in source order after `acc`. */
  function ParseElifs(toks: seq<Token>, pos: nat, acc: seq<ElifBranch>): (r: Parsed<seq<ElifBranch>>)
    requires pos <= |toks|
    ensures Within(r, toks, pos)
    ensures r.Success? ==> r.next < |toks| && toks[r.next] != Token.Elif
    ensures r.Success? ==> |acc| <= |r.value| && r.value[..|acc|] == acc
    decreases |toks| - pos, 0
  {
    if pos == |toks| then Panic(pos)
    else if toks[pos] != Token.Elif then Success(acc, pos)
    else
      var cond := ParseExpression(toks, pos + 1);
      if !cond.Success? then Fail(cond)
      else if toks[cond.next] != Token.Colon then Failure("Expected ':' after elif condition", cond.next)
      else
        var branch := ParseExpression(toks, cond.next + 1);
        if !branch.Success? then Fail(branch)
        else ParseElifs(toks, branch.next, acc + [ElifBranch(cond.value, branch.value)])
  }

  /** Binary level `k` (1 comparison, 2 additive, 3 multiplicative, 4 logical): operands of the next level folded from the left. */
  function Level(toks: seq<Token>, pos: nat, k: nat): (r: Parsed<Expression>)
    requires pos <= |toks| && 1 <= k <= 4
    ensures Consumes(r, toks, pos)
    ensures r.Success? ==> r.next < |toks| && BindingLevel(toks[r.next]) != k
    decreases |toks| - pos, 2 * (5 - k) + 1
  {
    var first := Operand(toks, pos, k);
    if !first.Success? then Fail(first)
    else LevelLoop(toks, first.value, first.next, k)
  }

  /** The operand of level `k`: the next tighter binary level, or a unary expression below the logical level. */
  function Operand(toks: seq<Token>, pos: nat, k: nat): (r: Parsed<Expression>)
    requires pos <= |toks| && 1 <= k <= 4
    ensures Consumes(r, toks, pos)
    decreases |toks| - pos, 2 * (5 - k)
  {
    if k == 4 then ParseUnary(toks, pos) else Level(toks, pos, k + 1)
  }

  /** The `while` loop of level `k`: as long as the next token is an operator of this level, fold one more operand. */
  function LevelLoop(toks: seq<Token>, left: Expression, pos: nat, k: nat): (r: Parsed<Expression>)
    requires pos <= |toks| && 1 <= k <= 4
    ensures Within(r, toks, pos)
    ensures r.Success? ==> r.next < |toks| && BindingLevel(toks[r.next]) != k
    ensures r.Success? && r.next == pos ==> r.value == left
    decreases |toks| - pos, 0
  {
    if pos == |toks| then Panic(pos)
    else if BindingLevel(toks[pos]) != k then Success(left, pos)
    else
      var op := ParseOperator(toks, pos);
      var after: nat := pos + 1;
      // The operator token was just peeked, so this propagation cannot happen.
      if !op.Success? then Failure("Unexpected token in operator", after)
      else
        var right := Operand(toks, op.next, k);
        if !right.Success? then Fail(right)
        else LevelLoop(toks, Binary(left, op.value, right.value), right.next, k)
  }

  /** `unary`: any number of `!` prefixes before a primary. */
  function ParseUnary(toks: seq<Token>, pos: nat): (r: Parsed<Expression>)
    requires pos <= |toks|
    ensures Consumes(r, toks, pos)
    ensures r.Success? && pos < |toks| && toks[pos] == Token.Not ==> r.value.Unary? && r.value.op == Operator.Not
    decreases |toks| - pos, 1
  {
    if pos == |toks| then Panic(pos)
    else if toks[pos] == Token.Not then
      var op := ParseOperator(toks, pos);
      var after: nat := pos + 1;
      // The operator token was just peeked, so this propagation cannot happen.
      if !op.Success? then Failure("Unexpected token in operator", after)
      else
        var right := ParseUnary(toks, op.next);
        if !right.Success? then Fail(right)
        else Success(Unary(op.value, right.value), right.next)
    else ParsePrimary(toks, pos)
  }

  /** `primary`: a literal, an identifier, or a parenthesised expression. */
  function ParsePrimary(toks: seq<Token>, pos: nat): (r: Parsed<Expression>)
    requires pos <= |toks|
    ensures Consumes(r, toks, pos)
    ensures r.Failure? && r.next == pos <==> pos < |toks| && !(toks[pos].StringLiteral? || toks[pos].NumberLiteral?
                                                              || toks[pos].BooleanLiteral? || toks[pos].Identifier?
                                                              || toks[pos] == Token.LeftParen)
    decreases |toks| - pos, 0
  {
    if pos == |toks| then Panic(pos)
    else
      match toks[pos]
      case StringLiteral(s) => Success(Expression.StringLiteral(s), pos + 1)
      case NumberLiteral(n) => Success(Expression.NumberLiteral(n), pos + 1)
      case BooleanLiteral(b) => Success(Expression.BooleanLiteral(b), pos + 1)
      case Identifier(id) => Success(Expression.Identifier(id), pos + 1)
      case LeftParen =>
        var inner := ParseExpression(toks, pos + 1);
        if !inner.Success? then Fail(inner)
        else if toks[inner.next] == Token.RightParen then Success(inner.value, inner.next + 1)
        else Failure("Expected ')' after expression", inner.next)
      case _ => Failure("Unexpected token in expression", pos)
  }

  // ----------------------------------------------------------------- statements

  /** `statement`: dispatch on the next token without consuming it; any other token is an error at the same cursor. */
  function ParseStatement(toks: seq<Token>, pos: nat): (r: Parsed<Statement>)
    requires pos <= |toks|
    ensures Consumes(r, toks, pos)
    ensures r.Failure? ==> (r.next == pos <==> pos < |toks| && !StartsStatement(toks[pos]))
    decreases |toks| - pos, 2
  {
    if pos == |toks| then Panic(pos)
    else
      match toks[pos]
      case Var => ParseVariableDeclaration(toks, pos)
      case Identifier(_) => ParseVariableAssignment(toks, pos)
      case Print => ParsePrintStatement(toks, pos)
      case If => ParseIfStatement(toks, pos)
      case While => ParseWhileStatement(toks, pos)
      case _ => Failure("Unexpected token in statement", pos)
  }

  /** `variable_declaration`: `var NAME (: TYPE)? = expression ;`. */
  function ParseVariableDeclaration(toks: seq<Token>, pos: nat): (r: Parsed<Statement>)
    requires pos <= |toks|
    ensures Within(r, toks, pos)
    ensures !r.Panic? ==> pos < r.next
    ensures r.Success? ==> (r.value.VariableDeclaration?
                         && r.next >= pos + 5 && toks[pos + 1] == Token.Identifier(r.value.name)
                         && (r.value.value_type.Some? <==> toks[pos + 2] == Token.Colon)
                         && toks[r.next - 1] == Token.Semicolon)
  {
    if pos == |toks| || pos + 1 == |toks| then Panic(|toks|)
    else if !toks[pos + 1].Identifier? then Failure("Expected variable name", pos + 2)
    else
      var name := toks[pos + 1].name;
      var p := pos + 2;
      if p == |toks| then Panic(p)
      else
        var ty: Parsed<Option<Type>> :=
          if toks[p] == Token.Colon then
            var t := ParseType(toks, p + 1);
            if t.Success? then Success(Some(t.value), t.next) else Fail(t)
          else Success(None, p);
        if !ty.Success? then Fail(ty)
        else if ty.next == |toks| then Panic(ty.next)
        else if toks[ty.next] != Token.Assign then Failure("Invalid variable declaration", ty.next + 1)
        else
          var value := ParseExpression(toks, ty.next + 1);
          if !value.Success? then Fail(value)
          else if toks[value.next] != Token.Semicolon then Failure("Invalid variable declaration", value.next + 1)
          else Success(VariableDeclaration(name, value.value, ty.value), value.next + 1)
  }

  /** `variable_assignment`: `NAME ++ ;`, `NAME -- ;` or `NAME = expression ;`, the last wrapped in the `Assign` marker. */
  function ParseVariableAssignment(toks: seq<Token>, pos: nat): (r: Parsed<Statement>)
    requires pos <= |toks|
    ensures Within(r, toks, pos)
    ensures !r.Panic? ==> pos < r.next
    ensures r.Success? ==> (r.value.VariableAssignment? && r.value.value_type.None?
                         && toks[pos] == Token.Identifier(r.value.name)
                         && toks[r.next - 1] == Token.Semicolon)
  {
    if pos == |toks| then Panic(pos)
    else if !toks[pos].Identifier? then Failure("Expected variable name", pos + 1)
    else
      var name := toks[pos].name;
      var p := pos + 1;
      if p == |toks| then Panic(p)
      else if !(toks[p] in {Token.Increment, Token.Decrement, Token.Assign}) then
        Failure("Invalid variable assignment", p)
      else
        var expr: Parsed<Expression> :=
          if toks[p] == Token.Increment then Success(Expression.Increment(Expression.Identifier(name)), p + 1)
          else if toks[p] == Token.Decrement then Success(Expression.Decrement(Expression.Identifier(name)), p + 1)
          else
            var value := ParseExpression(toks, p + 1);
            if value.Success? then Success(Binary(Expression.Identifier(name), Operator.Assign, value.value), value.next)
            else Fail(value);
        if !expr.Success? then Fail(expr)
        else if expr.next == |toks| then Panic(expr.next)
        else if toks[expr.next] != Token.Semicolon then Failure("Invalid variable assignment", expr.next + 1)
        else Success(VariableAssignment(name, expr.value, None), expr.next + 1)
  }

  /** `print_statement`: `print ( expression ) ;`. */
  function ParsePrintStatement(toks: seq<Token>, pos: nat): (r: Parsed<Statement>)
    requires pos <= |toks|
    ensures Within(r, toks, pos)
    ensures !r.Panic? ==> pos < r.next
    ensures r.Success? ==> (r.value.Print? && r.next >= pos + 5 && toks[pos + 1] == Token.LeftParen
                         && toks[r.next - 2] == Token.RightParen && toks[r.next - 1] == Token.Semicolon)
  {
    if pos == |toks| || pos + 1 == |toks| then Panic(|toks|)
    else if toks[pos + 1] != Token.LeftParen then Failure("Invalid print statement", pos + 1)
    else
      var value := ParseExpression(toks, pos + 2);
      if !value.Success? then Fail(value)
      else if toks[value.next] != Token.RightParen then Failure("Invalid print statement", value.next)
      else if value.next + 1 == |toks| then Panic(value.next + 1)
      else if toks[value.next + 1] != Token.Semicolon then Failure("Invalid print statement", value.next + 1)
      else Success(Statement.Print(value.value), value.next + 2)
  }

  /** `if_statement`: `if expression block (else block)?`; looking for `else` reads one token past the then-block. */
  function ParseIfStatement(toks: seq<Token>, pos: nat): (r: Parsed<Statement>)
    requires pos <= |toks|
    ensures Within(r, toks, pos)
    ensures !r.Panic? ==> pos < r.next
    ensures r.Success? ==> (r.value.If? && r.value.then_branch.Block?
                         && (r.value.else_branch.Some? ==> r.value.else_branch.value.Block?))
    decreases |toks| - pos, 1
  {
    if pos == |toks| then Panic(pos)
    else
      var cond := ParseExpression(toks, pos + 1);
      if !cond.Success? then Fail(cond)
      else
        var thn := ParseBlock(toks, cond.next);
        if !thn.Success? then Fail(thn)
        else if thn.next == |toks| then Panic(thn.next)
        else if toks[thn.next] == Token.Else then
          var els := ParseBlock(toks, thn.next + 1);
          if !els.Success? then Fail(els)
          else Success(Statement.If(cond.value, thn.value, Some(els.value)), els.next)
        else Success(Statement.If(cond.value, thn.value, None), thn.next)
  }

  /** `while_statement`: `while expression block`. */
  function ParseWhileStatement(toks: seq<Token>, pos: nat): (r: Parsed<Statement>)
    requires pos <= |toks|
    ensures Within(r, toks, pos)
    ensures !r.Panic? ==> pos < r.next
    ensures r.Success? ==> r.value.While? && r.value.body.Block?
    decreases |toks| - pos, 1
  {
    if pos == |toks| then Panic(pos)
    else
      var cond := ParseExpression(toks, pos + 1);
      if !cond.Success? then Fail(cond)
      else
        var body := ParseBlock(toks, cond.next);
        if !body.Success? then Fail(body)
        else Success(Statement.While(cond.value, body.value), body.next)
  }

  /** `block`: `{ statement* }`; the first failing inner statement fails the block. */
  function ParseBlock(toks: seq<Token>, pos: nat): (r: Parsed<Statement>)
    requires pos <= |toks|
    ensures Within(r, toks, pos)
    ensures r.Success? ==> (r.value.Block? && pos < r.next && toks[pos] == Token.LeftBrace
                         && toks[r.next - 1] == Token.RightBrace)
    ensures r.Failure? && r.next == pos ==> pos < |toks| && toks[pos] != Token.LeftBrace
    decreases |toks| - pos, 0
  {
    if pos == |toks| then Panic(pos)
    else if toks[pos] != Token.LeftBrace then Failure("Expected '{' to start block", pos)
    else
      var items := BlockItems(toks, pos + 1, []);
      // The loop only stops on `}`, so the second `}` check of the source cannot fail.
      if !items.Success? then Fail(items)
      else Success(Block(items.value), items.next + 1)
  }

  /** The loop of `block`: statements after `acc` until the next token is `}`. */
  function BlockItems(toks: seq<Token>, pos: nat, acc: seq<Statement>): (r: Parsed<seq<Statement>>)
    requires pos <= |toks|
    ensures Within(r, toks, pos)
    ensures r.Success? ==> r.next < |toks| && toks[r.next] == Token.RightBrace
    ensures r.Success? ==> |acc| <= |r.value| && r.value[..|acc|] == acc
    decreases |toks| - pos, 3
  {
    if pos == |toks| then Panic(pos)
    else if toks[pos] == Token.RightBrace then Success(acc, pos)
    else
      var s := ParseStatement(toks, pos);
      if !s.Success? then Fail(s)
      else BlockItems(toks, s.next, acc + [s.value])
  }

  // --------------------------------------------------------------- the top level

  /** What the top-level `parse` does: returns its `Result`, loops forever, or panics. */
  datatype ParseOutcome =
    | Returned(result: Result<seq<Statement>>)
    | Diverges(at: nat)
    | Panics(at: nat)

  /**
   * The loop of `parse` from cursor `pos`, having kept `acc`. A statement that
   * fails is dropped and the loop resumes where the cursor stopped; when it
   * stopped where it started, the next iteration is the same as this one, so
   * the loop never ends (`Diverges`).
   */
  function ParseFrom(toks: seq<Token>, pos: nat, acc: seq<Statement>): (r: ParseOutcome)
    requires pos <= |toks|
    ensures r.Returned? ==> r.result.Ok? && |acc| <= |r.result.value| && r.result.value[..|acc|] == acc
    ensures r.Diverges? ==> pos <= r.at < |toks| && !StartsStatement(toks[r.at])
    ensures r.Panics? ==> r.at == |toks|
    decreases |toks| - pos
  {
    if pos == |toks| then Returned(Ok(acc))
    else
      match ParseStatement(toks, pos)
      case Success(s, n) => ParseFrom(toks, n, acc + [s])
      case Failure(_, n) => if n == pos then Diverges(pos) else ParseFrom(toks, n, acc)
      case Panic(a) => Panics(a)
  }

  /** `parse`: the whole token sequence from the first token. */
  function Parse(toks: seq<Token>): (r: ParseOutcome)
    ensures r.Returned? ==> r.result.Ok?
    ensures r.Diverges? ==> r.at < |toks| && !StartsStatement(toks[r.at])
  {
    ParseFrom(toks, 0, [])
  }
}
