/**
 * A printer from syntax trees back to tokens, and the proof that the luth-lang
 * parser inverts it.
 *
 * Every compound expression is printed inside parentheses, so the printed form
 * does not depend on the (unusual) precedence table; the round-trip theorems
 * therefore say that each precedence level hands an operand it cannot extend to
 * the level above it, and that statements, blocks and the top-level loop
 * reassemble exactly the trees that were printed. The parser never produces an
 * `Increment`/`Decrement`/`Assign` node outside an assignment statement, nor a
 * `Nil` outside the else position of an inline if, nor a bare block as a
 * statement, so those are the trees left out of the printable set.
 */
module LuthPrinter {
  import opened Common
  import opened Windows
  import opened LuthToken
  import opened LuthAst
  import opened LuthParser

  // ------------------------------------------------------------- printable trees

  /** The precedence level of a binary operator (1 loosest .. 4 tightest), 0 for `Not` and `Assign`. */
  function OperatorLevel(op: Operator): nat {
    if op == Operator.Assign then 0 else BindingLevel(Spelling(op))
  }

  /** Expressions that appear parenthesised when printed. */
  predicate Compound(e: Expression) {
    e.Binary? || e.Unary?
  }

  /**
   * The operator trees the precedence levels can produce: literals, names, `!`
   * and the binary operators. Inline ifs are printed but not part of the round
   * trip; their parsing steps are stated one by one below.
   */
  predicate Printable(e: Expression) {
    match e
    case StringLiteral(_) => true
    case NumberLiteral(_) => true
    case BooleanLiteral(_) => true
    case Identifier(_) => true
    case Binary(l, op, r) => OperatorLevel(op) > 0 && Printable(l) && Printable(r)
    case Unary(op, r) => op == Operator.Not && Printable(r)
    case InlineIf(_, _, _, _) => false
    case Increment(_) => false
    case Decrement(_) => false
    case Nil => false
  }

  /** The value of an assignment statement as the parser builds it for `name`. */
  predicate AssignmentForm(name: string, v: Expression) {
    || v == Expression.Increment(Expression.Identifier(name))
    || v == Expression.Decrement(Expression.Identifier(name))
    || (v.Binary? && v.left == Expression.Identifier(name) && v.operator == Operator.Assign && Printable(v.right))
  }

  /** The statements the statement parser can produce. */
  predicate PrintableStatement(s: Statement) {
    match s
    case VariableDeclaration(_, v, _) => Printable(v)
    case VariableAssignment(n, v, ty) => ty.None? && AssignmentForm(n, v)
    case Print(e) => Printable(e)
    case If(c, t, el) => Printable(c) && PrintableBlock(t) && (el.Some? ==> PrintableBlock(el.value))
    case While(c, b) => Printable(c) && PrintableBlock(b)
    case Block(_) => false
  }

  /** A brace-delimited block of printable statements. */
  predicate PrintableBlock(b: Statement) {
    b.Block? && forall i :: 0 <= i < |b.statements| ==> PrintableStatement(b.statements[i])
  }

  /** An `if` without `else`: the parser looks one token past its block for `else`. */
  predicate OpenIf(s: Statement) {
    s.If? && s.else_branch.None?
  }

  // ---------------------------------------------------------------- the printer

  /** The token of an operator; `Assign` is spelt `=`, which no expression level accepts. */
  function OperatorToken(op: Operator): Token {
    if op == Operator.Assign then Token.Assign else Spelling(op)
  }

  /** The tokens of an expression: a single token, or a parenthesised body. */
  function Render(e: Expression): (r: seq<Token>)
    ensures |r| > 0 || e.Nil?
    decreases e, 2
  {
    match e
    case StringLiteral(s) => [Token.StringLiteral(s)]
    case NumberLiteral(n) => [Token.NumberLiteral(n)]
    case BooleanLiteral(b) => [Token.BooleanLiteral(b)]
    case Identifier(x) => [Token.Identifier(x)]
    case Binary(_, _, _) => [Token.LeftParen] + Body(e) + [Token.RightParen]
    case Unary(_, _) => [Token.LeftParen] + Body(e) + [Token.RightParen]
    case InlineIf(_, _, _, _) => [Token.LeftParen] + Body(e) + [Token.RightParen]
    case Increment(x) => Render(x) + [Token.Increment]
    case Decrement(x) => Render(x) + [Token.Decrement]
    case Nil => []
  }

  /** The tokens inside the parentheses of a compound expression. */
  function Body(e: Expression): seq<Token>
    decreases e, 1
  {
    match e
    case Binary(l, op, r) => Render(l) + [OperatorToken(op)] + Render(r)
    case Unary(_, r) => [Token.Not] + Render(r)
    case InlineIf(c, t, elifs, els) =>
      [Token.If] + Render(c) + [Token.Colon] + Render(t) + RenderElifs(e, 0) + RenderElse(els)
    case _ => []
  }

  /** The `elif` arms of the inline if `e` from arm `i` on. */
  function RenderElifs(e: Expression, i: nat): seq<Token>
    decreases e, 0, if e.InlineIf? then |e.elif_branches| - i else 0
  {
    if !e.InlineIf? || i >= |e.elif_branches| then []
    else
      [Token.Elif] + Render(e.elif_branches[i].condition) + [Token.Colon] + Render(e.elif_branches[i].branch)
      + RenderElifs(e, i + 1)
  }

  /** A `Nil` else branch is the one the parser supplies when `else` is absent. */
  function RenderElse(els: Expression): seq<Token> {
    if els.Nil? then [] else [Token.Else, Token.Colon] + Render(els)
  }

  function RenderType(ty: Option<Type>): seq<Token> {
    match ty
    case None => []
    case Some(String) => [Token.Colon, Token.StringType]
    case Some(Int) => [Token.Colon, Token.IntType]
    case Some(Boolean) => [Token.Colon, Token.BooleanType]
  }

  /** The tokens of a statement; an assignment prints the operator the parser attached to its value. */
  function RenderStatement(s: Statement): (r: seq<Token>)
    ensures |r| > 0 && (!s.Block? ==> StartsStatement(r[0]))
    decreases s, 1
  {
    match s
    case VariableDeclaration(n, v, ty) =>
      [Token.Var, Token.Identifier(n)] + RenderType(ty) + [Token.Assign] + Render(v) + [Token.Semicolon]
    case VariableAssignment(n, v, _) =>
      [Token.Identifier(n)]
      + (if v.Increment? then [Token.Increment]
         else if v.Decrement? then [Token.Decrement]
         else if v.Binary? then [Token.Assign] + Render(v.right)
         else [Token.Assign] + Render(v))
      + [Token.Semicolon]
    case Print(e) => [Token.Print, Token.LeftParen] + Render(e) + [Token.RightParen, Token.Semicolon]
    case If(c, t, el) => [Token.If] + Render(c) + RenderBlock(t) + RenderElsePart(el)
    case While(c, b) => [Token.While] + Render(c) + RenderBlock(b)
    case Block(_) => RenderBlock(s)
  }

  /** The optional `else` block of an `if` statement. */
  function RenderElsePart(el: Option<Statement>): seq<Token>
    decreases el, 2
  {
    if el.Some? then [Token.Else] + RenderBlock(el.value) else []
  }

  /** A statement printed as a brace-delimited block. */
  function RenderBlock(b: Statement): (r: seq<Token>)
    decreases b, 0
  {
    [Token.LeftBrace] + (if b.Block? then RenderStatements(b.statements) else []) + [Token.RightBrace]
  }

  function RenderStatements(ss: seq<Statement>): seq<Token>
    decreases ss, 0
  {
    if ss == [] then [] else RenderStatement(ss[0]) + RenderStatements(ss[1..])
  }

  // ------------------------------------------------------------ printed layouts

  /** Reading a printed expression: first token, then parts. */
  lemma CompoundLayout(toks: seq<Token>, p: nat, e: Expression)
    requires Compound(e) && Matches(toks, p, Render(e))
    ensures toks[p] == Token.LeftParen
    ensures Matches(toks, p + 1, Body(e))
    ensures p + 1 + |Body(e)| < |toks| && toks[p + 1 + |Body(e)|] == Token.RightParen
    ensures |Render(e)| == |Body(e)| + 2
  {
    assert Render(e) == [Token.LeftParen] + Body(e) + [Token.RightParen];
    Wrapped(toks, p, Token.LeftParen, Body(e), Token.RightParen);
  }

  lemma BinaryLayout(toks: seq<Token>, p: nat, e: Expression)
    requires e.Binary? && e.operator != Operator.Assign && Matches(toks, p, Body(e))
    ensures Matches(toks, p, Render(e.left))
    ensures toks[p + |Render(e.left)|] == Spelling(e.operator)
    ensures Matches(toks, p + |Render(e.left)| + 1, Render(e.right))
    ensures |Body(e)| == |Render(e.left)| + 1 + |Render(e.right)|
  {
    var l, r := Render(e.left), Render(e.right);
    Split(toks, p, l + [Spelling(e.operator)], r);
    Split(toks, p, l, [Spelling(e.operator)]);
    Single(toks, p + |l|, Spelling(e.operator));
  }

  lemma UnaryLayout(toks: seq<Token>, p: nat, e: Expression)
    requires e.Unary? && Matches(toks, p, Body(e))
    ensures toks[p] == Token.Not
    ensures Matches(toks, p + 1, Render(e.operand))
    ensures |Body(e)| == 1 + |Render(e.operand)|
  {
    Split(toks, p, [Token.Not], Render(e.operand));
    Single(toks, p, Token.Not);
  }

  /** The first token of a printed expression is a literal, a name or `(`. */
  lemma RenderStart(toks: seq<Token>, p: nat, e: Expression)
    requires Printable(e) && Matches(toks, p, Render(e))
    ensures toks[p] == Render(e)[0]
    ensures toks[p] != Token.If && toks[p] != Token.Not && toks[p] != Token.Elif && BindingLevel(toks[p]) == 0
  {
    Head(toks, p, Render(e));
  }

  // -------------------------------------------------- single steps of the parser

  /** The expression parser at depth `d`: 0 `expression`, 1..4 the binary levels, 5 `unary`, 6 `primary`. */
  function AtDepth(toks: seq<Token>, p: nat, d: nat): Parsed<Expression>
    requires p <= |toks| && d <= 6
  {
    if d == 0 then ParseExpression(toks, p)
    else if d <= 4 then Level(toks, p, d)
    else if d == 5 then ParseUnary(toks, p)
    else ParsePrimary(toks, p)
  }

  /** The token `t` ends an operand at depth `d`: it is no operator of that level or a tighter one. */
  predicate StopsBefore(t: Token, d: nat) {
    BindingLevel(t) < if d == 0 then 1 else d
  }

  /** An operand read at depth `d + 1` is handed unchanged to depth `d` when nothing can extend it. */
  lemma Lift(toks: seq<Token>, p: nat, e: Expression, q: nat, d: nat)
    requires p < |toks| && d <= 5
    requires d == 0 ==> toks[p] != Token.If
    requires d == 5 ==> toks[p] != Token.Not
    requires AtDepth(toks, p, d + 1) == Success(e, q)
    requires q < |toks| && StopsBefore(toks[q], d)
    ensures AtDepth(toks, p, d) == Success(e, q)
  {
    if 1 <= d <= 4 {
      assert Operand(toks, p, d) == Success(e, q);
      assert LevelLoop(toks, e, q, d) == Success(e, q);
    }
  }

  /** Level `k` reading `l op r` and stopping in front of a token of another level. */
  lemma LevelFold(toks: seq<Token>, p: nat, k: nat, l: Expression, op: Operator, r: Expression, p1: nat, q: nat)
    requires p <= |toks| && 1 <= k <= 4
    requires Operand(toks, p, k) == Success(l, p1)
    requires p1 < |toks| && BindingLevel(toks[p1]) == k && op != Operator.Assign && Spelling(op) == toks[p1]
    requires Operand(toks, p1 + 1, k) == Success(r, q)
    requires q < |toks| && BindingLevel(toks[q]) != k
    ensures Level(toks, p, k) == Success(Binary(l, op, r), q)
  {
    var o := ParseOperator(toks, p1);
    SpellingInjective(o.value, op);
    assert LevelLoop(toks, Binary(l, op, r), q, k) == Success(Binary(l, op, r), q);
  }

  lemma SpellingInjective(a: Operator, b: Operator)
    requires a != Operator.Assign && b != Operator.Assign && Spelling(a) == Spelling(b)
    ensures a == b
  {
  }

  /** `!` followed by a unary expression. */
  lemma NotStep(toks: seq<Token>, p: nat, e: Expression, q: nat)
    requires p < |toks| && toks[p] == Token.Not
    requires ParseUnary(toks, p + 1) == Success(e, q)
    ensures ParseUnary(toks, p) == Success(Unary(Operator.Not, e), q)
  {
  }

  /** `( e )` at the primary level. */
  lemma ParenStep(toks: seq<Token>, p: nat, e: Expression, q: nat)
    requires p < |toks| && toks[p] == Token.LeftParen
    requires ParseExpression(toks, p + 1) == Success(e, q)
    requires toks[q] == Token.RightParen
    ensures ParsePrimary(toks, p) == Success(e, q + 1)
  {
  }

  // ------------------------------------------------------ the expression levels

  /**
   * A printed expression followed by a token that no level at depth `d` or
   * tighter may continue with is parsed back at depth `d`, consuming exactly
   * its tokens.
   */
  lemma {:induction false} AtomParses(toks: seq<Token>, p: nat, e: Expression, d: nat)
    requires Printable(e) && d <= 6 && Matches(toks, p, Render(e))
    requires p + |Render(e)| < |toks| && StopsBefore(toks[p + |Render(e)|], d)
    ensures AtDepth(toks, p, d) == Success(e, p + |Render(e)|)
    decreases e, 13 - d, 1, 0
  {
    if d == 6 {
      PrimaryParses(toks, p, e);
    } else {
      AtomLift(toks, p, e, d);
    }
  }

  /** `AtomParses` at a depth looser than `primary`: the next depth reads the atom, and this depth passes it on. */
  lemma {:induction false} AtomLift(toks: seq<Token>, p: nat, e: Expression, d: nat)
    requires Printable(e) && d < 6 && Matches(toks, p, Render(e))
    requires p + |Render(e)| < |toks| && StopsBefore(toks[p + |Render(e)|], d)
    ensures AtDepth(toks, p, d) == Success(e, p + |Render(e)|)
    decreases e, 13 - d, 0, 0
  {
    RenderStart(toks, p, e);
    AtomParses(toks, p, e, d + 1);
    Lift(toks, p, e, p + |Render(e)|, d);
  }

  /** A printed expression is a primary: a single token or a parenthesised body. */
  lemma {:induction false} PrimaryParses(toks: seq<Token>, p: nat, e: Expression)
    requires Printable(e) && Matches(toks, p, Render(e)) && p + |Render(e)| <= |toks|
    ensures ParsePrimary(toks, p) == Success(e, p + |Render(e)|)
    decreases e, 7, 0, 0
  {
    if Compound(e) {
      CompoundLayout(toks, p, e);
      Inner(toks, p + 1, e, 0);
      ParenStep(toks, p, e, p + 1 + |Body(e)|);
    } else {
      Head(toks, p, Render(e));
    }
  }

  /**
   * The body of a compound expression followed by `)` is parsed back at every
   * depth from `expression` down to the level of its own operator.
   */
  lemma {:induction false} Inner(toks: seq<Token>, p: nat, e: Expression, d: nat)
    requires Printable(e) && Compound(e) && Matches(toks, p, Body(e))
    requires p + |Body(e)| < |toks| && toks[p + |Body(e)|] == Token.RightParen
    requires e.Binary? ==> d <= OperatorLevel(e.operator)
    requires e.Unary? ==> d <= 5
    ensures AtDepth(toks, p, d) == Success(e, p + |Body(e)|)
    decreases e, 6 - d, 0, 2
  {
    if e.Binary? {
      InnerOfBinary(toks, p, e, d);
    } else {
      InnerOfUnary(toks, p, e, d);
    }
  }

  /** `Inner` for a binary body. */
  lemma {:induction false} InnerOfBinary(toks: seq<Token>, p: nat, e: Expression, d: nat)
    requires Printable(e) && e.Binary? && Matches(toks, p, Body(e))
    requires p + |Body(e)| < |toks| && toks[p + |Body(e)|] == Token.RightParen
    requires d <= OperatorLevel(e.operator)
    ensures AtDepth(toks, p, d) == Success(e, p + |Body(e)|)
    decreases e, 6 - d, 0, 1
  {
    if d == OperatorLevel(e.operator) {
      InnerBinary(toks, p, e);
    } else {
      BinaryLift(toks, p, e, d);
    }
  }

  /** A binary body read at a looser depth than its operator's level. */
  lemma {:induction false} BinaryLift(toks: seq<Token>, p: nat, e: Expression, d: nat)
    requires Printable(e) && e.Binary? && Matches(toks, p, Body(e))
    requires p + |Body(e)| < |toks| && toks[p + |Body(e)|] == Token.RightParen
    requires d < OperatorLevel(e.operator)
    ensures AtDepth(toks, p, d) == Success(e, p + |Body(e)|)
    decreases e, 6 - d, 0, 0
  {
    BinaryStart(toks, p, e);
    Inner(toks, p, e, d + 1);
    Lift(toks, p, e, p + |Body(e)|, d);
  }

  /** A binary body starts with the first token of its left operand, which opens neither an `if` nor a `!`. */
  lemma BinaryStart(toks: seq<Token>, p: nat, e: Expression)
    requires Printable(e) && e.Binary? && Matches(toks, p, Body(e))
    ensures p < |toks| && toks[p] != Token.If && toks[p] != Token.Not
  {
    BinaryLayout(toks, p, e);
    RenderStart(toks, p, e.left);
  }

  /** `Inner` for a `!` body. */
  lemma {:induction false} InnerOfUnary(toks: seq<Token>, p: nat, e: Expression, d: nat)
    requires Printable(e) && Compound(e) && !e.Binary? && Matches(toks, p, Body(e))
    requires p + |Body(e)| < |toks| && toks[p + |Body(e)|] == Token.RightParen
    requires d <= 5
    ensures AtDepth(toks, p, d) == Success(e, p + |Body(e)|)
    decreases e, 6 - d, 0, 1
  {
    if d == 5 {
      NotBody(toks, p, e);
    } else {
      UnaryLift(toks, p, e, d);
    }
  }

  /** A `!` body read by `unary`. */
  lemma {:induction false} NotBody(toks: seq<Token>, p: nat, e: Expression)
    requires Printable(e) && e.Unary? && Matches(toks, p, Body(e))
    requires p + |Body(e)| < |toks| && toks[p + |Body(e)|] == Token.RightParen
    ensures ParseUnary(toks, p) == Success(e, p + |Body(e)|)
    decreases e, 0, 0, 0
  {
    UnaryLayout(toks, p, e);
    AtomParses(toks, p + 1, e.operand, 5);
    NotStep(toks, p, e.operand, p + |Body(e)|);
  }

  /** A `!` body read at a looser depth than `unary`. */
  lemma {:induction false} UnaryLift(toks: seq<Token>, p: nat, e: Expression, d: nat)
    requires Printable(e) && Compound(e) && e.Unary? && Matches(toks, p, Body(e))
    requires p + |Body(e)| < |toks| && toks[p + |Body(e)|] == Token.RightParen
    requires d < 5
    ensures AtDepth(toks, p, d) == Success(e, p + |Body(e)|)
    decreases e, 6 - d, 0, 0
  {
    UnaryLayout(toks, p, e);
    Inner(toks, p, e, d + 1);
    Lift(toks, p, e, p + |Body(e)|, d);
  }

  /** At the level of its own operator, a printed binary body folds exactly one operator. */
  lemma {:induction false} InnerBinary(toks: seq<Token>, p: nat, e: Expression)
    requires Printable(e) && e.Binary? && Matches(toks, p, Body(e))
    requires p + |Body(e)| < |toks| && toks[p + |Body(e)|] == Token.RightParen
    ensures Level(toks, p, OperatorLevel(e.operator)) == Success(e, p + |Body(e)|)
    decreases e, 1, 1, 0
  {
    var p1 := LeftParses(toks, p, e);
    RightParses(toks, p, e, p1);
    LevelFold(toks, p, OperatorLevel(e.operator), e.left, e.operator, e.right, p1, p + |Body(e)|);
  }

  /** The left operand of a printed binary body is read up to its operator. */
  lemma {:induction false} LeftParses(toks: seq<Token>, p: nat, e: Expression) returns (p1: nat)
    requires Printable(e) && e.Binary? && Matches(toks, p, Body(e))
    requires p + |Body(e)| < |toks| && toks[p + |Body(e)|] == Token.RightParen
    ensures 1 <= OperatorLevel(e.operator) <= 4 && p <= |toks|
    ensures Operand(toks, p, OperatorLevel(e.operator)) == Success(e.left, p1)
    ensures p1 < |toks| && BindingLevel(toks[p1]) == OperatorLevel(e.operator)
    ensures e.operator != Operator.Assign && Spelling(e.operator) == toks[p1]
    ensures p1 == p + |Render(e.left)|
    decreases e, 1, 0, 0
  {
    p1 := OperatorAt(toks, p, e);
    OperandParses(toks, p, e.left, OperatorLevel(e.operator));
  }

  /** The operator of a printed binary body sits right after its left operand. */
  lemma OperatorAt(toks: seq<Token>, p: nat, e: Expression) returns (p1: nat)
    requires Printable(e) && e.Binary? && Matches(toks, p, Body(e))
    requires p + |Body(e)| < |toks|
    ensures 1 <= OperatorLevel(e.operator) <= 4 && Printable(e.left) && Printable(e.right)
    ensures e.operator != Operator.Assign && p1 == p + |Render(e.left)| && p1 < |toks|
    ensures Matches(toks, p, Render(e.left)) && Spelling(e.operator) == toks[p1]
    ensures BindingLevel(toks[p1]) == OperatorLevel(e.operator) && StopsBefore(toks[p1], OperatorLevel(e.operator) + 1)
    ensures Matches(toks, p1 + 1, Render(e.right)) && p1 + 1 + |Render(e.right)| == p + |Body(e)|
  {
    BinaryLayout(toks, p, e);
    p1 := p + |Render(e.left)|;
  }

  /** The right operand of a printed binary body is read up to the closing parenthesis. */
  lemma {:induction false} RightParses(toks: seq<Token>, p: nat, e: Expression, p1: nat)
    requires Printable(e) && e.Binary? && Matches(toks, p, Body(e))
    requires p + |Body(e)| < |toks| && toks[p + |Body(e)|] == Token.RightParen
    requires p1 == p + |Render(e.left)|
    ensures 1 <= OperatorLevel(e.operator) <= 4 && p1 + 1 <= |toks|
    ensures Operand(toks, p1 + 1, OperatorLevel(e.operator)) == Success(e.right, p + |Body(e)|)
    ensures BindingLevel(toks[p + |Body(e)|]) != OperatorLevel(e.operator)
    decreases e, 1, 0, 0
  {
    var q := OperatorAt(toks, p, e);
    assert StopsBefore(toks[p + |Body(e)|], OperatorLevel(e.operator) + 1);
    OperandParses(toks, p1 + 1, e.right, OperatorLevel(e.operator));
  }

  /** A printed expression is read back as an operand of level `k` when nothing of level `k` or tighter follows. */
  lemma {:induction false} OperandParses(toks: seq<Token>, p: nat, e: Expression, k: nat)
    requires Printable(e) && 1 <= k <= 4 && Matches(toks, p, Render(e))
    requires p + |Render(e)| < |toks| && StopsBefore(toks[p + |Render(e)|], k + 1)
    ensures Operand(toks, p, k) == Success(e, p + |Render(e)|)
    decreases e, 13, 3, 0
  {
    AtomParses(toks, p, e, k + 1);
  }

  /** A printed expression followed by a token of no binary level parses back as an expression. */
  lemma {:induction false} ExpressionRoundTrip(toks: seq<Token>, p: nat, e: Expression)
    requires Printable(e) && Matches(toks, p, Render(e))
    requires p + |Render(e)| < |toks| && BindingLevel(toks[p + |Render(e)|]) == 0
    ensures ParseExpression(toks, p) == Success(e, p + |Render(e)|)
    decreases e, 13, 2, 0
  {
    AtomParses(toks, p, e, 0);
  }
}
