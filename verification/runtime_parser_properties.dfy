/**
 * Properties of the `src/runtime` parser beyond the round trip: the loop of
 * `parse` on a token no statement starts with, the expression grammar that
 * admits only literals and names between `+ - * /`, how two operators in a
 * row are grouped, how each statement form is assembled, and the panics at
 * the end of the tokens.
 */
module RuntimeParserProperties {
  import opened Common
  import opened Windows
  import opened RuntimeToken
  import opened RuntimeAst
  import opened RuntimeParser
  import opened RuntimePrinter
  import opened RuntimeStatementRoundTrip

  // ------------------------------------------------------ dispatch and progress

  /**
   * A token that starts no statement is an error that consumes nothing, so the
   * loop of `parse` is back in the same state: it spins. Every statement that
   * is dispatched reads at least one token before it returns.
   */
  lemma DispatchProgress(toks: seq<Token>, pos: nat, acc: seq<Statement>)
    requires pos < |toks|
    ensures !StartsStatement(toks[pos]) ==>
              && ParseStatement(toks, pos) == Failure("Unexpected token in statement", pos)
              && ParseFrom(toks, pos, acc) == Diverges(pos)
    ensures StartsStatement(toks[pos]) && !ParseStatement(toks, pos).Panic? ==> pos < ParseStatement(toks, pos).next
  {
  }

  /** A statement that fails after reading is dropped, and `parse` resumes where the cursor stopped. */
  lemma FailureResumes(toks: seq<Token>, pos: nat, acc: seq<Statement>)
    requires pos < |toks| && ParseStatement(toks, pos).Failure?
    requires ParseStatement(toks, pos).next != pos
    ensures ParseFrom(toks, pos, acc) == ParseFrom(toks, ParseStatement(toks, pos).next, acc)
  {
  }

  /** `var x = 1 ; EOF`: the end marker the lexer pushes starts no statement, so `parse` spins on it. */
  lemma EofSpins()
    ensures Parse([Token.Var, Token.Identifier("x"), Token.Assign, Token.NumberLiteral(1.0), Token.Semicolon, Token.EOF])
         == Diverges(5)
  {
    var toks := [Token.Var, Token.Identifier("x"), Token.Assign, Token.NumberLiteral(1.0), Token.Semicolon, Token.EOF];
    var s := VariableDeclaration("x", Expression.NumberLiteral(1.0), None);
    assert ParseExpression(toks, 3) == Success(Expression.NumberLiteral(1.0), 4) by {
      assert ParsePrimary(toks, 3) == Success(Expression.NumberLiteral(1.0), 4);
      assert LevelLoop(toks, Expression.NumberLiteral(1.0), 4, 2) == Success(Expression.NumberLiteral(1.0), 4);
      assert LevelLoop(toks, Expression.NumberLiteral(1.0), 4, 1) == Success(Expression.NumberLiteral(1.0), 4);
    }
    DeclarationStep(toks, 0, "x", None, 2, Expression.NumberLiteral(1.0), 4);
    ProgramStep(toks, 0, [], s, 5);
    DispatchProgress(toks, 5, [s]);
  }

  // ---------------------------------------------------------------- expressions

  /**
   * An expression must start with a literal or a name: anything else, `(` and
   * `!` included, is an error at the same cursor; this grammar has neither
   * parentheses nor prefix operators.
   */
  lemma OnlyAtomsStart(toks: seq<Token>, pos: nat)
    requires pos < |toks| && !Atom(toks[pos])
    ensures ParseExpression(toks, pos) == Failure("Unexpected token in expression", pos)
  {
    assert Operand(toks, pos, 2) == Failure("Unexpected token in expression", pos);
    assert Level(toks, pos, 2) == Failure("Unexpected token in expression", pos);
    assert Operand(toks, pos, 1) == Failure("Unexpected token in expression", pos);
  }

  /** `( a )` is not an expression. */
  lemma NoParentheses()
    ensures ParseExpression([Token.LeftParen, Token.Identifier("a"), Token.RightParen, Token.Semicolon], 0)
         == Failure("Unexpected token in expression", 0)
  {
    OnlyAtomsStart([Token.LeftParen, Token.Identifier("a"), Token.RightParen, Token.Semicolon], 0);
  }

  /** `a && b` stops after `a`: `&&` is pushed by the lexer but has no binary level here. */
  lemma LogicalOperatorsStop(toks: seq<Token>)
    requires toks == [Token.Identifier("a"), Token.And, Token.Identifier("b"), Token.Semicolon]
    ensures ParseExpression(toks, 0) == Success(Expression.Identifier("a"), 1)
  {
    var a := Expression.Identifier("a");
    assert Operand(toks, 0, 2) == Success(a, 1);
    assert LevelLoop(toks, a, 1, 2) == Success(a, 1);
    assert Level(toks, 0, 2) == Success(a, 1);
    assert Operand(toks, 0, 1) == Success(a, 1);
    assert LevelLoop(toks, a, 1, 1) == Success(a, 1);
  }

  /** The three names joined by two operators, ending in `;`, that the grouping lemmas read. */
  function Names(a: string, o1: Operator, b: string, o2: Operator, c: string): seq<Token>
    requires Parsable(o1) && Parsable(o2)
  {
    [Token.Identifier(a), Spelling(o1), Token.Identifier(b), Spelling(o2), Token.Identifier(c), Token.Semicolon]
  }

  /** The level of each of the four operators is that of its token: 1 or 2. */
  lemma ParsableLevel(op: Operator)
    requires Parsable(op)
    ensures OperatorLevel(op) == BindingLevel(Spelling(op)) && 1 <= OperatorLevel(op) <= 2
  {
  }

  /** A name is a tree of every level. */
  lemma NameShaped(x: string, k: nat)
    requires 1 <= k <= 3
    ensures Shaped(Expression.Identifier(x), k) && Render(Expression.Identifier(x)) == [Token.Identifier(x)]
    decreases 3 - k
  {
    if k < 3 {
      NameShaped(x, k + 1);
    }
  }

  /**
   * How `a o1 b o2 c` is grouped for any two of the four operators: the second
   * operator takes `b` when it binds tighter, and otherwise the first pair
   * is grouped first, also between operators of the same level.
   */
  lemma Grouping(a: string, o1: Operator, b: string, o2: Operator, c: string)
    requires Parsable(o1) && Parsable(o2)
    ensures var x, y, z := Expression.Identifier(a), Expression.Identifier(b), Expression.Identifier(c);
            var toks := Names(a, o1, b, o2, c);
            && (OperatorLevel(o1) < OperatorLevel(o2) ==> ParseExpression(toks, 0) == Success(Binary(x, o1, Binary(y, o2, z)), 5))
            && (OperatorLevel(o1) >= OperatorLevel(o2) ==> ParseExpression(toks, 0) == Success(Binary(Binary(x, o1, y), o2, z), 5))
  {
    var x, y, z := Expression.Identifier(a), Expression.Identifier(b), Expression.Identifier(c);
    var toks := Names(a, o1, b, o2, c);
    ParsableLevel(o1);
    ParsableLevel(o2);
    NameShaped(a, 1);
    NameShaped(a, 2);
    NameShaped(b, 2);
    NameShaped(b, 3);
    NameShaped(c, 2);
    NameShaped(c, 3);
    if OperatorLevel(o1) < OperatorLevel(o2) {
      var inner := Binary(y, o2, z);
      var e := Binary(x, o1, inner);
      assert Shaped(inner, 2);
      assert Shaped(inner, 1 + 1);
      assert Shaped(e, 1);
      ExpressionRoundTrip(e);
      assert Render(inner) == [Token.Identifier(b), Spelling(o2), Token.Identifier(c)];
      assert Render(e) + [Token.Semicolon] == toks;
    } else {
      var inner := Binary(x, o1, y);
      var e := Binary(inner, o2, z);
      if OperatorLevel(o2) == 2 {
        assert Shaped(inner, 2);
        assert Shaped(e, 2);
      } else {
        NameShaped(a, 1);
        NameShaped(b, 2);
        if OperatorLevel(o1) == 2 {
          assert Shaped(inner, 2);
        }
        assert Shaped(inner, 1);
        NameShaped(c, 2);
      }
      assert Shaped(e, 1);
      ExpressionRoundTrip(e);
      assert Render(inner) == [Token.Identifier(a), Spelling(o1), Token.Identifier(b)];
      assert Render(e) + [Token.Semicolon] == toks;
    }
  }

  /** `a - b - c ;` is `(a - b) - c`. */
  lemma SubtractionFoldsLeft()
    ensures ParseExpression(Names("a", Operator.Minus, "b", Operator.Minus, "c"), 0)
         == Success(Binary(Binary(Expression.Identifier("a"), Operator.Minus, Expression.Identifier("b")), Operator.Minus, Expression.Identifier("c")), 5)
  {
    Grouping("a", Operator.Minus, "b", Operator.Minus, "c");
  }

  /** `a + b * c ;` is `a + (b * c)`. */
  lemma ProductBindsTighter()
    ensures ParseExpression(Names("a", Operator.Plus, "b", Operator.Star, "c"), 0)
         == Success(Binary(Expression.Identifier("a"), Operator.Plus, Binary(Expression.Identifier("b"), Operator.Star, Expression.Identifier("c"))), 5)
  {
    Grouping("a", Operator.Plus, "b", Operator.Star, "c");
  }

  // ----------------------------------------------------------------- statements

  /**
   * A successful statement starting with a name is `NAME = e ;` and stores
   * the expression `e` itself, with no type.
   */
  lemma AssignmentShape(toks: seq<Token>, pos: nat)
    requires pos < |toks| && toks[pos].Identifier? && ParseStatement(toks, pos).Success?
    ensures var r := ParseStatement(toks, pos);
            && r.value.VariableAssignment? && r.value.name == toks[pos].name && r.value.value_type.None?
            && toks[pos + 1] == Token.Assign && toks[r.next - 1] == Token.Semicolon
            && ParseExpression(toks, pos + 2) == Success(r.value.value, r.next - 1)
  {
    assert ParseStatement(toks, pos) == ParseVariableAssignment(toks, pos);
  }

  /**
   * A successful statement starting with `var` declares the name after it; the
   * annotation is present exactly when `:` follows the name, and then it is
   * the type the next token spells.
   */
  lemma DeclarationShape(toks: seq<Token>, pos: nat)
    requires pos < |toks| && toks[pos] == Token.Var && ParseStatement(toks, pos).Success?
    ensures var r := ParseStatement(toks, pos);
            && r.value.VariableDeclaration? && toks[pos + 1] == Token.Identifier(r.value.name)
            && (r.value.value_type.Some? <==> toks[pos + 2] == Token.Colon)
            && (r.value.value_type.Some? ==> ParseType(toks, pos + 3) == Success(r.value.value_type.value, pos + 4))
            && toks[r.next - 1] == Token.Semicolon
  {
    assert ParseStatement(toks, pos) == ParseVariableDeclaration(toks, pos);
  }

  /** An annotation that is not one of the three type keywords fails the declaration just after it. */
  lemma BadAnnotation(toks: seq<Token>, pos: nat)
    requires pos + 3 < |toks| && toks[pos] == Token.Var && toks[pos + 1].Identifier? && toks[pos + 2] == Token.Colon
    requires !(toks[pos + 3] in {Token.StringType, Token.IntType, Token.BooleanType})
    ensures ParseStatement(toks, pos) == Failure("Unexpected token in type", pos + 4)
  {
    assert ParseStatement(toks, pos) == ParseVariableDeclaration(toks, pos);
  }

  /**
   * A successful `if` has the condition read after `if` and a then-branch that
   * is any single statement; it has an else-branch exactly when `else`
   * follows the then-branch.
   */
  lemma IfShape(toks: seq<Token>, pos: nat)
    requires pos < |toks| && toks[pos] == Token.If && ParseStatement(toks, pos).Success?
    ensures var r := ParseStatement(toks, pos);
            var c := ParseExpression(toks, pos + 1);
            && r.value.If? && c.Success? && c.value == r.value.condition
            && ParseStatement(toks, c.next).Success? && ParseStatement(toks, c.next).value == r.value.then_branch
            && var q := ParseStatement(toks, c.next).next;
               q < |toks| && (r.value.else_branch.Some? <==> toks[q] == Token.Else)
               && (r.value.else_branch.Some? ==> ParseStatement(toks, q + 1) == Success(r.value.else_branch.value, r.next))
               && (r.value.else_branch.None? ==> r.next == q)
  {
    assert ParseStatement(toks, pos) == ParseIfStatement(toks, pos);
  }

  /**
   * The dangling `else`: in `if c1 if c2 s1 else s2`, the `else` goes with the
   * inner `if`, and the outer one has none.
   */
  lemma ElseBindsInner(toks: seq<Token>, p: nat, c1: Expression, q1: nat, c2: Expression, q2: nat,
                       s1: Statement, q3: nat, s2: Statement, q4: nat)
    requires p < |toks| && toks[p] == Token.If && ParseExpression(toks, p + 1) == Success(c1, q1)
    requires toks[q1] == Token.If && ParseExpression(toks, q1 + 1) == Success(c2, q2)
    requires ParseStatement(toks, q2) == Success(s1, q3)
    requires q3 < |toks| && toks[q3] == Token.Else && ParseStatement(toks, q3 + 1) == Success(s2, q4)
    requires q4 < |toks| && toks[q4] != Token.Else
    ensures ParseStatement(toks, p) == Success(Statement.If(c1, Statement.If(c2, s1, Some(s2)), None), q4)
  {
    IfStep(toks, q1, c2, q2, s1, q3, Some(s2), q4);
    IfStep(toks, p, c1, q1, Statement.If(c2, s1, Some(s2)), q4, None, q4);
  }

  // ----------------------------------------------------- running off the end

  /**
   * A program whose last statement ends with an `if` without `else` panics:
   * after its then-branch the parser looks for `else` one token past the end.
   */
  lemma TrailingIfPanics(ss: seq<Statement>)
    requires 0 < |ss| && forall j :: 0 <= j < |ss| ==> PrintableStatement(ss[j])
    requires OpenEnd(ss[|ss| - 1])
    ensures Parse(RenderStatements(ss)) == Panics(|RenderStatements(ss)|)
  {
    var toks := RenderStatements(ss);
    assert ss[0..] == ss;
    assert Matches(toks, 0, toks) by {
      forall i | 0 <= i < |toks| ensures toks[0 + i] == At(toks, i) {
      }
    }
    ProgramPanics(toks, 0, ss, 0, []);
  }

  lemma {:induction false} ProgramPanics(toks: seq<Token>, p: nat, ss: seq<Statement>, i: nat, acc: seq<Statement>)
    requires i < |ss| && forall j :: 0 <= j < |ss| ==> PrintableStatement(ss[j])
    requires OpenEnd(ss[|ss| - 1])
    requires Matches(toks, p, RenderStatements(ss[i..])) && p + |RenderStatements(ss[i..])| == |toks|
    ensures ParseFrom(toks, p, acc) == Panics(|toks|)
    decreases |ss| - i
  {
    if i + 1 < |ss| {
      var n := InnerParses(toks, p, ss, i);
      ProgramStep(toks, p, acc, ss[i], n);
      ProgramPanics(toks, n, ss, i + 1, acc + [ss[i]]);
    } else {
      StatementsLayout(toks, p, ss, i);
      assert ss[i + 1..] == [];
      StatementStart(toks, p, ss[i]);
      LastOpenPanics(toks, p, ss[i]);
    }
  }

  /** A printed statement that is not the last one is read back, whether or not it ends open. */
  lemma InnerParses(toks: seq<Token>, p: nat, ss: seq<Statement>, i: nat) returns (n: nat)
    requires i + 1 < |ss| && forall j :: 0 <= j < |ss| ==> PrintableStatement(ss[j])
    requires Matches(toks, p, RenderStatements(ss[i..]))
    ensures p < |toks| && ParseStatement(toks, p) == Success(ss[i], n)
    ensures Matches(toks, n, RenderStatements(ss[i + 1..]))
    ensures n + |RenderStatements(ss[i + 1..])| == p + |RenderStatements(ss[i..])|
  {
    StatementsLayout(toks, p, ss, i);
    n := p + |RenderStatement(ss[i])|;
    StatementsLayout(toks, n, ss, i + 1);
    StatementStart(toks, n, ss[i + 1]);
    StatementStart(toks, p, ss[i]);
    StatementParses(toks, p, ss[i]);
  }

  /** A statement ending with an `if` without `else`, printed at the very end of the tokens, panics. */
  lemma {:induction false} LastOpenPanics(toks: seq<Token>, p: nat, s: Statement)
    requires OpenEnd(s) && PrintableStatement(s) && Matches(toks, p, RenderStatement(s))
    requires p + |RenderStatement(s)| == |toks|
    ensures ParseStatement(toks, p) == Panic(|toks|)
    decreases s, 1
  {
    var q1 := IfPrefix(toks, p, s);
    if s.else_branch.None? {
      ThenRunsOff(toks, q1, s.then_branch);
    } else {
      ElseRunsOff(toks, q1, s.then_branch, s.else_branch.value);
    }
    IfPanics(toks, p, s.condition, q1);
  }

  /** The then-branch of an `if` without `else` printed at the end either panics itself or ends at the end. */
  lemma {:induction false} ThenRunsOff(toks: seq<Token>, q1: nat, t: Statement)
    requires PrintableStatement(t) && Matches(toks, q1, RenderStatement(t)) && q1 + |RenderStatement(t)| == |toks|
    ensures var r := ParseStatement(toks, q1); r.Panic? || (r.Success? && r.next == |toks|)
    decreases t, 2
  {
    if OpenEnd(t) {
      LastOpenPanics(toks, q1, t);
    } else {
      StatementParses(toks, q1, t);
    }
  }

  /** An `if` with `else` whose else-branch ends open at the end: `else` is found, and the else-branch panics. */
  lemma {:induction false} ElseRunsOff(toks: seq<Token>, q1: nat, t: Statement, el: Statement)
    requires PrintableStatement(t) && !OpenEnd(t) && PrintableStatement(el) && OpenEnd(el)
    requires Matches(toks, q1, RenderStatement(t))
    requires Matches(toks, q1 + |RenderStatement(t)|, RenderElse(Some(el)))
    requires q1 + |RenderStatement(t)| + |RenderElse(Some(el))| == |toks|
    ensures var r := ParseStatement(toks, q1);
            r.Success? && r.next < |toks| && toks[r.next] == Token.Else && ParseStatement(toks, r.next + 1).Panic?
    decreases el, 2
  {
    var q2 := q1 + |RenderStatement(t)|;
    StatementParses(toks, q1, t);
    ElseLayout(toks, q2, el);
    LastOpenPanics(toks, q2 + 1, el);
  }

  /** The printed else part `else s`: the `else` token, then the statement. */
  lemma ElseLayout(toks: seq<Token>, q2: nat, el: Statement)
    requires PrintableStatement(el) && Matches(toks, q2, RenderElse(Some(el)))
    ensures q2 < |toks| && toks[q2] == Token.Else && Matches(toks, q2 + 1, RenderStatement(el))
    ensures q2 + 1 + |RenderStatement(el)| == q2 + |RenderElse(Some(el))|
  {
    ElseStart(toks, q2, Some(el));
    Split(toks, q2, [Token.Else], RenderStatement(el));
  }

  /**
   * An `if` panics when its then-branch panics, when the then-branch ends at
   * the end of the tokens (the look-ahead for `else`), or when its
   * else-branch panics.
   */
  lemma IfPanics(toks: seq<Token>, p: nat, c: Expression, q1: nat)
    requires p < |toks| && toks[p] == Token.If && ParseExpression(toks, p + 1) == Success(c, q1)
    requires var t := ParseStatement(toks, q1);
             || t.Panic?
             || (t.Success? && t.next == |toks|)
             || (t.Success? && t.next < |toks| && toks[t.next] == Token.Else && ParseStatement(toks, t.next + 1).Panic?)
    ensures ParseStatement(toks, p) == Panic(|toks|)
  {
    IfPanicsBody(toks, p, c, q1);
    assert ParseStatement(toks, p) == ParseIfStatement(toks, p);
  }

  /** `IfPanics` for `if_statement` itself. */
  lemma IfPanicsBody(toks: seq<Token>, p: nat, c: Expression, q1: nat)
    requires p < |toks| && ParseExpression(toks, p + 1) == Success(c, q1)
    requires var t := ParseStatement(toks, q1);
             || t.Panic?
             || (t.Success? && t.next == |toks|)
             || (t.Success? && t.next < |toks| && toks[t.next] == Token.Else && ParseStatement(toks, t.next + 1).Panic?)
    ensures ParseIfStatement(toks, p) == Panic(|toks|)
  {
  }

  /** A declaration cut off after its name panics instead of reporting an error. */
  lemma TruncatedDeclarationPanics()
    ensures Parse([Token.Var, Token.Identifier("x")]) == Panics(2)
  {
    assert ParseStatement([Token.Var, Token.Identifier("x")], 0) == Panic(2);
  }
}
