/**
 * A printer for the `src/runtime` syntax tree, and the proof that the parser
 * of that generation inverts it.
 *
 * That parser has no parentheses, so a tree prints back only if it already
 * has the shape the precedence levels build: each `+`/`-` node has a `+`/`-`
 * tree or a factor on its left and a factor on its right, each `*`/`/` node a
 * factor on its left and a literal or name on its right (`Shaped`). Those are
 * exactly the trees the round trip covers. An `if` whose last `else` is missing
 * reads one token past its end looking for `else`; it must not be the then-branch
 * of an `if` that has an `else`, nor the last statement of the program.
 */
module RuntimePrinter {
  import opened Common
  import opened Windows
  import opened RuntimeToken
  import opened RuntimeAst
  import opened RuntimeParser

  // ------------------------------------------------------------- printable trees

  /** A literal or a name: what `primary` returns. */
  predicate Simple(e: Expression) {
    e.StringLiteral? || e.NumberLiteral? || e.BooleanLiteral? || e.Identifier?
  }

  /** The level of an operator in the parser: 1 for `+`/`-`, 2 for `*`/`/`, 0 for the ones it never builds. */
  function OperatorLevel(op: Operator): nat {
    if Parsable(op) then BindingLevel(Spelling(op)) else 0
  }

  /** Trees of literals, names and the four parsable operators. */
  predicate Flat(e: Expression) {
    match e
    case Binary(l, op, r) => Parsable(op) && Flat(l) && Flat(r)
    case Unary(_, _) => false
    case _ => true
  }

  /**
   * The trees level `k` returns (1 `term`, 2 `factor`, 3 `primary`): a tree of
   * the next level, or a left fold of this level's operators whose right
   * operands are trees of the next level.
   */
  predicate Shaped(e: Expression, k: nat)
    decreases e, if k < 3 then 3 - k else 0
  {
    if k >= 3 then Simple(e)
    else Shaped(e, k + 1) || (e.Binary? && OperatorLevel(e.operator) == k && Shaped(e.left, k) && Shaped(e.right, k + 1))
  }

  lemma {:induction false} ShapedIsFlat(e: Expression, k: nat)
    requires 1 <= k && Shaped(e, k)
    ensures Flat(e)
    decreases e, if k < 3 then 3 - k else 0
  {
    if k < 3 {
      if Shaped(e, k + 1) {
        ShapedIsFlat(e, k + 1);
      } else {
        ShapedIsFlat(e.left, k);
        ShapedIsFlat(e.right, k + 1);
      }
    }
  }

  /** A shaped tree of level `k` is a literal or name, or has its operator at level `k` or tighter. */
  lemma {:induction false} ShapedLevel(e: Expression, k: nat)
    requires Shaped(e, k) && e.Binary?
    ensures OperatorLevel(e.operator) >= k
    decreases if k < 3 then 3 - k else 0
  {
    if k < 3 && Shaped(e, k + 1) {
      ShapedLevel(e, k + 1);
    }
  }

  /** An `if` that ends without `else`, directly or in its last `else` branch: the parser peeks one token past it. */
  predicate OpenEnd(s: Statement) {
    s.If? && (s.else_branch.None? || OpenEnd(s.else_branch.value))
  }

  /** The statements the parser can produce and print back unchanged. */
  predicate PrintableStatement(s: Statement) {
    match s
    case VariableDeclaration(_, v, _) => Shaped(v, 1)
    case VariableAssignment(_, v, ty) => ty.None? && Shaped(v, 1)
    case Print(e) => Shaped(e, 1)
    case If(c, t, el) =>
      && Shaped(c, 1) && PrintableStatement(t)
      && (el.Some? ==> !OpenEnd(t) && PrintableStatement(el.value))
  }

  /** Printable statements, of which the last does not end open. */
  predicate PrintableProgram(ss: seq<Statement>) {
    && (forall j :: 0 <= j < |ss| ==> PrintableStatement(ss[j]))
    && (|ss| > 0 ==> !OpenEnd(ss[|ss| - 1]))
  }

  // ---------------------------------------------------------------- the printer

  /** The tokens of an expression, operators written between their operands. */
  function Render(e: Expression): (r: seq<Token>)
    requires Flat(e)
    ensures |r| > 0 && Atom(r[0])
  {
    match e
    case StringLiteral(s) => [Token.StringLiteral(s)]
    case NumberLiteral(n) => [Token.NumberLiteral(n)]
    case BooleanLiteral(b) => [Token.BooleanLiteral(b)]
    case Identifier(x) => [Token.Identifier(x)]
    case Binary(l, op, r) => Render(l) + [Spelling(op)] + Render(r)
  }

  function RenderType(ty: Option<Type>): seq<Token> {
    match ty
    case None => []
    case Some(String) => [Token.Colon, Token.StringType]
    case Some(Int) => [Token.Colon, Token.IntType]
    case Some(Boolean) => [Token.Colon, Token.BooleanType]
  }

  function RenderStatement(s: Statement): (r: seq<Token>)
    requires PrintableStatement(s)
    ensures |r| > 0 && StartsStatement(r[0])
  {
    match s
    case VariableDeclaration(n, v, ty) =>
      ShapedIsFlat(v, 1);
      [Token.Var, Token.Identifier(n)] + RenderType(ty) + [Token.Assign] + Render(v) + [Token.Semicolon]
    case VariableAssignment(n, v, _) =>
      ShapedIsFlat(v, 1);
      [Token.Identifier(n), Token.Assign] + Render(v) + [Token.Semicolon]
    case Print(e) =>
      ShapedIsFlat(e, 1);
      [Token.Print, Token.LeftParen] + Render(e) + [Token.RightParen, Token.Semicolon]
    case If(c, t, el) =>
      ShapedIsFlat(c, 1);
      [Token.If] + Render(c) + RenderStatement(t) + RenderElse(el)
  }

  /** The optional `else` part of an `if`. */
  function RenderElse(el: Option<Statement>): seq<Token>
    requires el.Some? ==> PrintableStatement(el.value)
  {
    if el.Some? then [Token.Else] + RenderStatement(el.value) else []
  }

  function RenderStatements(ss: seq<Statement>): seq<Token>
    requires forall j :: 0 <= j < |ss| ==> PrintableStatement(ss[j])
  {
    if ss == [] then [] else RenderStatement(ss[0]) + RenderStatements(ss[1..])
  }

  // ------------------------------------------------------ expression round trip

  /** `primary` reads back a printed literal or name. */
  lemma PrimaryParses(toks: seq<Token>, p: nat, e: Expression)
    requires Simple(e) && Matches(toks, p, Render(e))
    ensures ParsePrimary(toks, p) == Success(e, p + 1)
  {
    Head(toks, p, Render(e));
  }

  /** The operand of level `k` reads back a tree of level `k + 1` and stops in front of any token not above `k`. */
  lemma {:induction false} OperandParses(toks: seq<Token>, p: nat, e: Expression, k: nat)
    requires 1 <= k <= 2 && Shaped(e, k + 1) && Flat(e) && Matches(toks, p, Render(e))
    requires p + |Render(e)| < |toks| && BindingLevel(toks[p + |Render(e)|]) <= k
    ensures Operand(toks, p, k) == Success(e, p + |Render(e)|)
    decreases e, 3 - k, 0
  {
    if k == 2 {
      PrimaryParses(toks, p, e);
    } else {
      LevelParses(toks, p, e, k + 1);
    }
  }

  /** Level `k` reads a printed tree of level `k` and hands it to its loop in front of the token after it. */
  lemma {:induction false} LevelPrefix(toks: seq<Token>, p: nat, e: Expression, k: nat)
    requires 1 <= k <= 2 && Shaped(e, k) && Flat(e) && Matches(toks, p, Render(e))
    requires p + |Render(e)| < |toks| && BindingLevel(toks[p + |Render(e)|]) <= k
    ensures Level(toks, p, k) == LevelLoop(toks, e, p + |Render(e)|, k)
    decreases e, 3 - k, 2
  {
    if e.Binary? && OperatorLevel(e.operator) == k {
      FoldPrefix(toks, p, e, k);
    } else {
      OperandPrefix(toks, p, e, k);
    }
  }

  /** `LevelPrefix` for a fold of level `k`: the left tree, then one turn of the loop. */
  lemma {:induction false} FoldPrefix(toks: seq<Token>, p: nat, e: Expression, k: nat)
    requires 1 <= k <= 2 && e.Binary? && OperatorLevel(e.operator) == k
    requires Shaped(e, k) && Flat(e) && Matches(toks, p, Render(e))
    requires p + |Render(e)| < |toks| && BindingLevel(toks[p + |Render(e)|]) <= k
    ensures Level(toks, p, k) == LevelLoop(toks, e, p + |Render(e)|, k)
    decreases e, 3 - k, 1
  {
    var p1 := FoldRight(toks, p, e, k);
    LevelPrefix(toks, p, e.left, k);
  }

  /** The last operator and right operand of a printed tree of level `k` are folded by one turn of the loop. */
  lemma {:induction false} FoldRight(toks: seq<Token>, p: nat, e: Expression, k: nat) returns (p1: nat)
    requires 1 <= k <= 2 && e.Binary? && OperatorLevel(e.operator) == k
    requires Shaped(e, k) && Flat(e) && Matches(toks, p, Render(e))
    requires p + |Render(e)| < |toks| && BindingLevel(toks[p + |Render(e)|]) <= k
    ensures Shaped(e.left, k) && Flat(e.left) && Matches(toks, p, Render(e.left))
    ensures p1 == p + |Render(e.left)| && p1 < |toks| && BindingLevel(toks[p1]) <= k
    ensures LevelLoop(toks, e.left, p1, k) == LevelLoop(toks, e, p + |Render(e)|, k)
    decreases e, 3 - k, 0
  {
    p1 := FoldParts(toks, p, e, k);
    OperandParses(toks, p1 + 1, e.right, k);
    LoopStep(toks, e.left, p1, k, e.operator, e.right, p + |Render(e)|);
  }

  /** `LevelPrefix` for a tree of a tighter level: it is the first operand. */
  lemma {:induction false} OperandPrefix(toks: seq<Token>, p: nat, e: Expression, k: nat)
    requires 1 <= k <= 2 && !(e.Binary? && OperatorLevel(e.operator) == k)
    requires Shaped(e, k) && Flat(e) && Matches(toks, p, Render(e))
    requires p + |Render(e)| < |toks| && BindingLevel(toks[p + |Render(e)|]) <= k
    ensures Level(toks, p, k) == LevelLoop(toks, e, p + |Render(e)|, k)
    decreases e, 3 - k, 1
  {
    assert Shaped(e, k + 1);
    OperandParses(toks, p, e, k);
  }

  /** The parts of a printed fold of level `k`: its left tree, its operator at `p1`, its right operand. */
  lemma FoldParts(toks: seq<Token>, p: nat, e: Expression, k: nat) returns (p1: nat)
    requires 1 <= k <= 2 && e.Binary? && OperatorLevel(e.operator) == k
    requires Shaped(e, k) && Flat(e) && Matches(toks, p, Render(e))
    requires p + |Render(e)| < |toks| && BindingLevel(toks[p + |Render(e)|]) <= k
    ensures Shaped(e.left, k) && Flat(e.left) && Matches(toks, p, Render(e.left))
    ensures p1 == p + |Render(e.left)| && p1 < |toks| && BindingLevel(toks[p1]) <= k
    ensures Parsable(e.operator) && toks[p1] == Spelling(e.operator) && BindingLevel(Spelling(e.operator)) == k
    ensures Shaped(e.right, k + 1) && Flat(e.right) && Matches(toks, p1 + 1, Render(e.right))
    ensures p1 + 1 + |Render(e.right)| == p + |Render(e)|
  {
    if Shaped(e, k + 1) {
      ShapedLevel(e, k + 1);
    }
    assert Render(e) == Render(e.left) + [Spelling(e.operator)] + Render(e.right);
    p1 := p + |Render(e.left)|;
    Around(toks, p, Render(e.left), Spelling(e.operator), Render(e.right));
  }

  /** One turn of the loop of level `k`: the operator at the cursor and the operand after it join the tree on the left. */
  lemma LoopStep(toks: seq<Token>, left: Expression, p: nat, k: nat, op: Operator, r: Expression, q: nat)
    requires 1 <= k <= 2 && p < |toks| && Parsable(op) && toks[p] == Spelling(op) && BindingLevel(Spelling(op)) == k
    requires Operand(toks, p + 1, k) == Success(r, q)
    ensures LevelLoop(toks, left, p, k) == LevelLoop(toks, Binary(left, op, r), q, k)
  {
    var o := ParseOperator(toks, p);
    SpellingInjective(o.value, op);
  }

  /** Level `k` reads back a printed tree of level `k` in front of a token of a looser level. */
  lemma {:induction false} LevelParses(toks: seq<Token>, p: nat, e: Expression, k: nat)
    requires 1 <= k <= 2 && Shaped(e, k) && Flat(e) && Matches(toks, p, Render(e))
    requires p + |Render(e)| < |toks| && BindingLevel(toks[p + |Render(e)|]) < k
    ensures Level(toks, p, k) == Success(e, p + |Render(e)|)
    decreases e, 3 - k, 3
  {
    LevelPrefix(toks, p, e, k);
  }

  lemma SpellingInjective(a: Operator, b: Operator)
    requires Parsable(a) && Parsable(b) && Spelling(a) == Spelling(b)
    ensures a == b
  {
  }

  /** `expression` reads back a printed term in front of any non-operator token. */
  lemma ExpressionParses(toks: seq<Token>, p: nat, e: Expression)
    requires Shaped(e, 1) && Flat(e) && Matches(toks, p, Render(e))
    requires p + |Render(e)| < |toks| && BindingLevel(toks[p + |Render(e)|]) == 0
    ensures ParseExpression(toks, p) == Success(e, p + |Render(e)|)
  {
    LevelParses(toks, p, e, 1);
  }

  /** The expression round trip: a shaped tree printed before `;` parses back to itself. */
  lemma ExpressionRoundTrip(e: Expression)
    requires Shaped(e, 1)
    ensures Flat(e) && ParseExpression(Render(e) + [Token.Semicolon], 0) == Success(e, |Render(e)|)
  {
    ShapedIsFlat(e, 1);
    var toks := Render(e) + [Token.Semicolon];
    assert Matches(toks, 0, Render(e)) by {
      forall i | 0 <= i < |Render(e)| ensures toks[0 + i] == At(Render(e), i) {
      }
    }
    ExpressionParses(toks, 0, e);
  }
}
