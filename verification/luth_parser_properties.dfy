/**
 * Properties of the luth-lang parser beyond the round trip.
 *
 * `ParseLoop` is the `while !is_at_end()` loop of `parse` written literally,
 * one iteration per unit of fuel; it is related to `ParseFrom`, which
 * classifies the loop's behaviour (returns, spins, panics) once and for all.
 * The precedence lemmas state how two operators in a row are grouped, and the
 * statement lemmas how each statement form is assembled.
 */
module LuthParserProperties {
  import opened Common
  import opened Windows
  import opened LuthToken
  import opened LuthAst
  import opened LuthParser
  import opened LuthPrinter
  import opened LuthStatementRoundTrip

  // ------------------------------------------------------ the loop of `parse`

  /** Where `parse` is after a bounded number of iterations. */
  datatype LoopRun =
    | Finished(result: Result<seq<Statement>>)
    | Running(cursor: nat, kept: seq<Statement>)
    | Crashed(at: nat)

  /**
   * `parse` from cursor `pos` with `acc` kept, for at most `fuel` iterations:
   * each iteration parses one statement, keeps it on success, drops it on
   * failure, and continues from wherever the cursor stopped.
   */
  function ParseLoop(toks: seq<Token>, pos: nat, acc: seq<Statement>, fuel: nat): (r: LoopRun)
    requires pos <= |toks|
    ensures r.Finished? ==> r.result.Ok? && |acc| <= |r.result.value| && r.result.value[..|acc|] == acc
    ensures r.Running? ==> pos <= r.cursor < |toks| && |acc| <= |r.kept| && r.kept[..|acc|] == acc
    ensures r.Crashed? ==> r.at == |toks|
    decreases fuel
  {
    if pos >= |toks| then Finished(Ok(acc))
    else if fuel == 0 then Running(pos, acc)
    else
      match ParseStatement(toks, pos)
      case Success(s, n) =>
        var r := ParseLoop(toks, n, acc + [s], fuel - 1);
        KeptGrows(acc, [s], r);
        r
      case Failure(_, n) => ParseLoop(toks, n, acc, fuel - 1)
      case Panic(a) => Crashed(a)
  }

  /** A run that keeps `acc + more` first keeps `acc` first. */
  lemma KeptGrows(acc: seq<Statement>, more: seq<Statement>, r: LoopRun)
    requires r.Finished? && r.result.Ok? ==> |acc + more| <= |r.result.value| && r.result.value[..|acc + more|] == acc + more
    requires r.Running? ==> |acc + more| <= |r.kept| && r.kept[..|acc + more|] == acc + more
    ensures r.Finished? && r.result.Ok? ==> |acc| <= |r.result.value| && r.result.value[..|acc|] == acc
    ensures r.Running? ==> |acc| <= |r.kept| && r.kept[..|acc|] == acc
  {
    if r.Finished? && r.result.Ok? {
      assert r.result.value[..|acc|] == (acc + more)[..|acc|];
    }
    if r.Running? {
      assert r.kept[..|acc|] == (acc + more)[..|acc|];
    }
  }

  /** A statement that fails where it started leaves the loop in the same state for ever. */
  lemma {:induction false} SpinKeepsState(toks: seq<Token>, pos: nat, acc: seq<Statement>, fuel: nat)
    requires pos < |toks| && ParseStatement(toks, pos).Failure? && ParseStatement(toks, pos).next == pos
    ensures ParseLoop(toks, pos, acc, fuel) == Running(pos, acc)
    decreases fuel
  {
    if fuel > 0 {
      SpinKeepsState(toks, pos, acc, fuel - 1);
    }
  }

  /** When `ParseFrom` says the loop spins, no amount of fuel makes it finish or crash. */
  lemma {:induction false} DivergesForever(toks: seq<Token>, pos: nat, acc: seq<Statement>, fuel: nat)
    requires pos <= |toks| && ParseFrom(toks, pos, acc).Diverges?
    ensures ParseLoop(toks, pos, acc, fuel).Running?
    ensures ParseLoop(toks, pos, acc, fuel).cursor <= ParseFrom(toks, pos, acc).at
    decreases fuel
  {
    if fuel > 0 && pos < |toks| {
      var r := ParseStatement(toks, pos);
      if r.Success? {
        DivergesForever(toks, r.next, acc + [r.value], fuel - 1);
      } else if r.Failure? && r.next != pos {
        DivergesForever(toks, r.next, acc, fuel - 1);
      } else if r.Failure? {
        SpinKeepsState(toks, pos, acc, fuel);
      }
    }
  }

  /** The loop after some iterations is where `ParseFrom` says `parse` ends: the same result, the same panic, or still running. */
  predicate Agrees(o: ParseOutcome, r: LoopRun) {
    && (o.Returned? ==> r == Finished(o.result))
    && (o.Panics? ==> r == Crashed(o.at))
    && (o.Diverges? ==> r.Running?)
  }

  /** With one iteration per remaining token, the loop ends as `ParseFrom` says. */
  lemma {:induction false} LoopAgrees(toks: seq<Token>, pos: nat, acc: seq<Statement>, fuel: nat)
    requires pos <= |toks| && |toks| - pos <= fuel
    ensures Agrees(ParseFrom(toks, pos, acc), ParseLoop(toks, pos, acc, fuel))
    decreases |toks| - pos
  {
    if pos < |toks| {
      var r := ParseStatement(toks, pos);
      if r.Success? {
        LoopAgrees(toks, r.next, acc + [r.value], fuel - 1);
      } else if r.Failure? && r.next != pos {
        LoopAgrees(toks, r.next, acc, fuel - 1);
      } else if r.Failure? {
        DivergesForever(toks, pos, acc, fuel);
      }
    }
  }

  /** `parse` never returns `Err`: whatever the tokens, the loop finishes with `Ok`, crashes, or runs on. */
  lemma NeverErr(toks: seq<Token>, fuel: nat)
    ensures !(ParseLoop(toks, 0, [], fuel).Finished? && ParseLoop(toks, 0, [], fuel).result.Err?)
    ensures Parse(toks).Returned? ==> Parse(toks).result.Ok?
  {
  }

  // ------------------------------------------------------ dispatch and progress

  /**
   * The dispatcher fails on any token that starts no statement without moving
   * the cursor, so `parse` spins there; on every other token, a statement that
   * does not panic has read at least one token.
   */
  lemma {:induction false} DispatchProgress(toks: seq<Token>, pos: nat, acc: seq<Statement>)
    requires pos < |toks|
    ensures !StartsStatement(toks[pos]) ==>
              ParseStatement(toks, pos) == Failure("Unexpected token in statement", pos)
              && ParseFrom(toks, pos, acc) == Diverges(pos)
    ensures StartsStatement(toks[pos]) && !ParseStatement(toks, pos).Panic? ==> pos < ParseStatement(toks, pos).next
  {
    if !StartsStatement(toks[pos]) {
      assert ParseStatement(toks, pos) == Failure("Unexpected token in statement", pos);
    }
  }

  /** A statement that fails after reading is dropped, and `parse` resumes where the cursor stopped. */
  lemma FailureResumes(toks: seq<Token>, pos: nat, acc: seq<Statement>)
    requires pos < |toks| && ParseStatement(toks, pos).Failure?
    requires ParseStatement(toks, pos).next != pos
    ensures ParseFrom(toks, pos, acc) == ParseFrom(toks, ParseStatement(toks, pos).next, acc)
  {
  }

  /** `parse` panics only by reading past the last token of a non-empty sequence. */
  lemma {:induction false} ParseOutcomes(toks: seq<Token>)
    ensures Parse(toks).Panics? ==> Parse(toks).at == |toks| && |toks| > 0
  {
  }

  // ------------------------------------------------------------- precedence

  /** Three names joined by two operators, followed by a token of no binary level. */
  predicate Chain(toks: seq<Token>, p: nat, a: string, o1: Operator, b: string, o2: Operator, c: string) {
    && p + 5 < |toks| && o1 != Operator.Assign && o2 != Operator.Assign
    && OperatorLevel(o1) > 0 && OperatorLevel(o2) > 0
    && toks[p] == Token.Identifier(a) && toks[p + 1] == Spelling(o1)
    && toks[p + 2] == Token.Identifier(b) && toks[p + 3] == Spelling(o2)
    && toks[p + 4] == Token.Identifier(c)
    && BindingLevel(toks[p + 5]) == 0
  }

  /** A name is read as an operand at depth `d` when the next token does not continue it there. */
  lemma NameOperand(toks: seq<Token>, p: nat, d: nat)
    requires p + 1 < |toks| && toks[p].Identifier? && d <= 6 && StopsBefore(toks[p + 1], d)
    ensures AtDepth(toks, p, d) == Success(Expression.Identifier(toks[p].name), p + 1)
  {
    var e := Expression.Identifier(toks[p].name);
    assert Render(e) == [toks[p]];
    assert Matches(toks, p, Render(e)) by {
      assert toks[p + 0] == At(Render(e), 0);
    }
    AtomParses(toks, p, e, d);
  }

  /** An expression read at depth `d` is what `expression` reads when it is followed by a token of no binary level. */
  lemma {:induction false} LiftToExpression(toks: seq<Token>, p: nat, e: Expression, q: nat, d: nat)
    requires p < |toks| && d <= 5 && toks[p] != Token.If && toks[p] != Token.Not
    requires AtDepth(toks, p, d) == Success(e, q)
    requires q < |toks| && BindingLevel(toks[q]) == 0
    ensures ParseExpression(toks, p) == Success(e, q)
    decreases d
  {
    if d > 0 {
      Lift(toks, p, e, q, d - 1);
      LiftToExpression(toks, p, e, q, d - 1);
    }
  }

  /** `a o1 b` at the level `k` of `o1`, stopping in front of a token of a looser level or none. */
  lemma PairAtLevel(toks: seq<Token>, p: nat, a: string, o: Operator, b: string, k: nat)
    requires p + 3 < |toks| && o != Operator.Assign && k == OperatorLevel(o)
    requires toks[p] == Token.Identifier(a) && toks[p + 1] == Spelling(o) && toks[p + 2] == Token.Identifier(b)
    requires BindingLevel(toks[p + 3]) < k
    ensures 1 <= k <= 4
    ensures Level(toks, p, k) == Success(Binary(Expression.Identifier(a), o, Expression.Identifier(b)), p + 3)
  {
    NameOperand(toks, p, k + 1);
    NameOperand(toks, p + 2, k + 1);
    LevelFold(toks, p, k, Expression.Identifier(a), o, Expression.Identifier(b), p + 1, p + 3);
  }

  /** Operators of one level fold from the left: `a o1 b o2 c` is `(a o1 b) o2 c`. */
  lemma LeftFold(toks: seq<Token>, p: nat, a: string, o1: Operator, b: string, o2: Operator, c: string)
    requires Chain(toks, p, a, o1, b, o2, c) && OperatorLevel(o1) == OperatorLevel(o2)
    ensures ParseExpression(toks, p)
         == Success(Binary(Binary(Expression.Identifier(a), o1, Expression.Identifier(b)), o2, Expression.Identifier(c)), p + 5)
  {
    var k := OperatorLevel(o1);
    var abc := Binary(Binary(Expression.Identifier(a), o1, Expression.Identifier(b)), o2, Expression.Identifier(c));
    ChainOperands(toks, p, a, o1, b, o2, c);
    ChainFolds(toks, p, a, o1, b, o2, c);
    LiftToExpression(toks, p, abc, p + 5, k);
  }

  /** The three names of a chain are operands of the chain's level, and its two operators are read as written. */
  lemma ChainOperands(toks: seq<Token>, p: nat, a: string, o1: Operator, b: string, o2: Operator, c: string)
    requires Chain(toks, p, a, o1, b, o2, c) && OperatorLevel(o1) == OperatorLevel(o2)
    ensures OperatorLevel(o1) <= 4
    ensures Operand(toks, p, OperatorLevel(o1)) == Success(Expression.Identifier(a), p + 1)
    ensures Operand(toks, p + 2, OperatorLevel(o1)) == Success(Expression.Identifier(b), p + 3)
    ensures Operand(toks, p + 4, OperatorLevel(o1)) == Success(Expression.Identifier(c), p + 5)
    ensures ParseOperator(toks, p + 1) == Success(o1, p + 2) && ParseOperator(toks, p + 3) == Success(o2, p + 4)
  {
    ChainOperators(toks, p, a, o1, b, o2, c);
    var k := OperatorLevel(o1);
    NameOperand(toks, p, k + 1);
    NameOperand(toks, p + 2, k + 1);
    assert Operand(toks, p, k) == Success(Expression.Identifier(a), p + 1);
    NameOperand(toks, p + 4, k + 1);
    assert Operand(toks, p + 2, k) == Success(Expression.Identifier(b), p + 3);
    assert Operand(toks, p + 4, k) == Success(Expression.Identifier(c), p + 5);
  }

  /** The two operator tokens of a chain are read back as the operators they spell. */
  lemma ChainOperators(toks: seq<Token>, p: nat, a: string, o1: Operator, b: string, o2: Operator, c: string)
    requires Chain(toks, p, a, o1, b, o2, c)
    ensures ParseOperator(toks, p + 1) == Success(o1, p + 2) && ParseOperator(toks, p + 3) == Success(o2, p + 4)
  {
    var o := ParseOperator(toks, p + 1);
    SpellingInjective(o.value, o1);
    var o' := ParseOperator(toks, p + 3);
    SpellingInjective(o'.value, o2);
  }

  /** With its operands and operators read, the loop of the chain's level folds them to the left. */
  lemma ChainFolds(toks: seq<Token>, p: nat, a: string, o1: Operator, b: string, o2: Operator, c: string)
    requires Chain(toks, p, a, o1, b, o2, c) && OperatorLevel(o1) == OperatorLevel(o2) && OperatorLevel(o1) <= 4
    requires Operand(toks, p, OperatorLevel(o1)) == Success(Expression.Identifier(a), p + 1)
    requires Operand(toks, p + 2, OperatorLevel(o1)) == Success(Expression.Identifier(b), p + 3)
    requires Operand(toks, p + 4, OperatorLevel(o1)) == Success(Expression.Identifier(c), p + 5)
    requires ParseOperator(toks, p + 1) == Success(o1, p + 2) && ParseOperator(toks, p + 3) == Success(o2, p + 4)
    ensures Level(toks, p, OperatorLevel(o1))
         == Success(Binary(Binary(Expression.Identifier(a), o1, Expression.Identifier(b)), o2, Expression.Identifier(c)), p + 5)
  {
    var k := OperatorLevel(o1);
    var ab := Binary(Expression.Identifier(a), o1, Expression.Identifier(b));
    var abc := Binary(ab, o2, Expression.Identifier(c));
    assert LevelLoop(toks, abc, p + 5, k) == Success(abc, p + 5);
    assert LevelLoop(toks, ab, p + 3, k) == Success(abc, p + 5);
    assert LevelLoop(toks, Expression.Identifier(a), p + 1, k) == Success(abc, p + 5);
  }

  /** A tighter second operator takes the middle operand: `a o1 b o2 c` is `a o1 (b o2 c)`. */
  lemma TighterRight(toks: seq<Token>, p: nat, a: string, o1: Operator, b: string, o2: Operator, c: string)
    requires Chain(toks, p, a, o1, b, o2, c) && OperatorLevel(o1) < OperatorLevel(o2)
    ensures ParseExpression(toks, p)
         == Success(Binary(Expression.Identifier(a), o1, Binary(Expression.Identifier(b), o2, Expression.Identifier(c))), p + 5)
  {
    var k1, k2 := OperatorLevel(o1), OperatorLevel(o2);
    var bc := Binary(Expression.Identifier(b), o2, Expression.Identifier(c));
    PairAtLevel(toks, p + 2, b, o2, c, k2);
    LiftBetween(toks, p + 2, bc, p + 5, k2, k1 + 1);
    NameOperand(toks, p, k1 + 1);
    LevelFold(toks, p, k1, Expression.Identifier(a), o1, bc, p + 1, p + 5);
    LiftToExpression(toks, p, Binary(Expression.Identifier(a), o1, bc), p + 5, k1);
  }

  /** A tighter first operator keeps its operands: `a o1 b o2 c` is `(a o1 b) o2 c`. */
  lemma TighterLeft(toks: seq<Token>, p: nat, a: string, o1: Operator, b: string, o2: Operator, c: string)
    requires Chain(toks, p, a, o1, b, o2, c) && OperatorLevel(o1) > OperatorLevel(o2)
    ensures ParseExpression(toks, p)
         == Success(Binary(Binary(Expression.Identifier(a), o1, Expression.Identifier(b)), o2, Expression.Identifier(c)), p + 5)
  {
    var k1, k2 := OperatorLevel(o1), OperatorLevel(o2);
    var ab := Binary(Expression.Identifier(a), o1, Expression.Identifier(b));
    PairAtLevel(toks, p, a, o1, b, k1);
    LiftBetween(toks, p, ab, p + 3, k1, k2 + 1);
    NameOperand(toks, p + 4, k2 + 1);
    LevelFold(toks, p, k2, ab, o2, Expression.Identifier(c), p + 3, p + 5);
    LiftToExpression(toks, p, Binary(ab, o2, Expression.Identifier(c)), p + 5, k2);
  }

  /** An expression read at binary level `k` is read unchanged at every looser level down to `d` when no operator of those levels follows. */
  lemma {:induction false} LiftBetween(toks: seq<Token>, p: nat, e: Expression, q: nat, k: nat, d: nat)
    requires p < |toks| && 1 <= d <= k <= 4
    requires Level(toks, p, k) == Success(e, q)
    requires q < |toks| && BindingLevel(toks[q]) < d
    ensures AtDepth(toks, p, d) == Success(e, q)
    decreases k - d
  {
    if d < k {
      LiftBetween(toks, p, e, q, k, d + 1);
      Lift(toks, p, e, q, d);
    }
  }

  /** How `a o1 b o2 c` is grouped, for any two operators of the four binary levels. */
  lemma Grouping(toks: seq<Token>, p: nat, a: string, o1: Operator, b: string, o2: Operator, c: string)
    requires Chain(toks, p, a, o1, b, o2, c)
    ensures OperatorLevel(o1) < OperatorLevel(o2) ==>
              ParseExpression(toks, p)
              == Success(Binary(Expression.Identifier(a), o1, Binary(Expression.Identifier(b), o2, Expression.Identifier(c))), p + 5)
    ensures OperatorLevel(o1) >= OperatorLevel(o2) ==>
              ParseExpression(toks, p)
              == Success(Binary(Binary(Expression.Identifier(a), o1, Expression.Identifier(b)), o2, Expression.Identifier(c)), p + 5)
  {
    if OperatorLevel(o1) < OperatorLevel(o2) {
      TighterRight(toks, p, a, o1, b, o2, c);
    } else if OperatorLevel(o1) > OperatorLevel(o2) {
      TighterLeft(toks, p, a, o1, b, o2, c);
    } else {
      LeftFold(toks, p, a, o1, b, o2, c);
    }
  }

  /** `a - b - c ;` is `(a - b) - c`. */
  lemma SubtractionFoldsLeft(toks: seq<Token>)
    requires toks == [Token.Identifier("a"), Token.Minus, Token.Identifier("b"), Token.Minus, Token.Identifier("c"), Token.Semicolon]
    ensures ParseExpression(toks, 0)
         == Success(Binary(Binary(Expression.Identifier("a"), Operator.Minus, Expression.Identifier("b")), Operator.Minus, Expression.Identifier("c")), 5)
  {
    Grouping(toks, 0, "a", Operator.Minus, "b", Operator.Minus, "c");
  }

  /** `a * b && c ;` is `a * (b && c)`: the logical level binds tighter than multiplication. */
  lemma LogicalBindsTighterThanProduct(toks: seq<Token>)
    requires toks == [Token.Identifier("a"), Token.Star, Token.Identifier("b"), Token.And, Token.Identifier("c"), Token.Semicolon]
    ensures ParseExpression(toks, 0)
         == Success(Binary(Expression.Identifier("a"), Operator.Star, Binary(Expression.Identifier("b"), Operator.And, Expression.Identifier("c"))), 5)
  {
    Grouping(toks, 0, "a", Operator.Star, "b", Operator.And, "c");
  }

  // -------------------------------------------------------------- statements

  /**
   * A successful statement starting with a name is an assignment to that name
   * with no type: `++` and `--` become `Increment`/`Decrement` of the name,
   * `= e` becomes the binary `Assign` of the name and `e`, and a `;` ends it.
   */
  lemma AssignmentShape(toks: seq<Token>, pos: nat)
    requires pos < |toks| && toks[pos].Identifier? && ParseStatement(toks, pos).Success?
    ensures var r := ParseStatement(toks, pos);
            var x := Expression.Identifier(toks[pos].name);
            && r.value.VariableAssignment? && r.value.name == toks[pos].name && r.value.value_type.None?
            && toks[r.next - 1] == Token.Semicolon
            && (toks[pos + 1] == Token.Increment ==> r.value.value == Expression.Increment(x) && r.next == pos + 3)
            && (toks[pos + 1] == Token.Decrement ==> r.value.value == Expression.Decrement(x) && r.next == pos + 3)
            && (toks[pos + 1] == Token.Assign ==>
                  && r.value.value.Binary? && r.value.value.left == x && r.value.value.operator == Operator.Assign
                  && ParseExpression(toks, pos + 2) == Success(r.value.value.right, r.next - 1))
            && toks[pos + 1] in {Token.Increment, Token.Decrement, Token.Assign}
  {
    assert ParseStatement(toks, pos) == ParseVariableAssignment(toks, pos);
  }

  /**
   * A successful statement starting with `var` is a declaration of the name
   * after it; the annotation is present exactly when `:` follows the name, and
   * then it is the type the next token spells.
   */
  lemma DeclarationShape(toks: seq<Token>, pos: nat)
    requires pos < |toks| && toks[pos] == Token.Var && ParseStatement(toks, pos).Success?
    ensures var r := ParseStatement(toks, pos);
            && r.value.VariableDeclaration? && toks[pos + 1] == Token.Identifier(r.value.name)
            && (r.value.value_type.Some? <==> toks[pos + 2] == Token.Colon)
            && (r.value.value_type.Some? ==> ParseType(toks, pos + 3) == Success(r.value.value_type.value, pos + 4))
            && toks[r.next - 1] == Token.Semicolon
  {
    assert ParseStatement(toks, pos) == ParseVariableDeclaration(toks, pos);
  }

  /** An annotation that is not one of the three type keywords fails the declaration just after it. */
  lemma BadAnnotation(toks: seq<Token>, pos: nat)
    requires pos + 3 < |toks| && toks[pos] == Token.Var && toks[pos + 1].Identifier? && toks[pos + 2] == Token.Colon
    requires !(toks[pos + 3] in {Token.StringType, Token.IntType, Token.BooleanType})
    ensures ParseStatement(toks, pos) == Failure("Unexpected token in type", pos + 4)
  {
    assert ParseStatement(toks, pos) == ParseVariableDeclaration(toks, pos);
  }

  /** The body of `while`, and the then-block of `if`, must open with `{`; otherwise the statement fails in front of it. */
  lemma BodiesNeedBraces(toks: seq<Token>, pos: nat, c: Expression, q: nat)
    requires pos < |toks| && (toks[pos] == Token.If || toks[pos] == Token.While)
    requires ParseExpression(toks, pos + 1) == Success(c, q) && toks[q] != Token.LeftBrace
    ensures ParseStatement(toks, pos) == Failure("Expected '{' to start block", q)
  {
    assert ParseBlock(toks, q) == Failure("Expected '{' to start block", q);
  }

  /** The else-block of `if` must open with `{` too. */
  lemma ElseNeedsBrace(toks: seq<Token>, pos: nat, c: Expression, q1: nat, t: Statement, q2: nat)
    requires pos < |toks| && toks[pos] == Token.If
    requires ParseExpression(toks, pos + 1) == Success(c, q1) && ParseBlock(toks, q1) == Success(t, q2)
    requires q2 + 1 < |toks| && toks[q2] == Token.Else && toks[q2 + 1] != Token.LeftBrace
    ensures ParseStatement(toks, pos) == Failure("Expected '{' to start block", q2 + 1)
  {
    assert ParseBlock(toks, q2 + 1) == Failure("Expected '{' to start block", q2 + 1);
  }

  /** The first statement of a block that fails fails the block, with its own message and cursor. */
  lemma BlockPropagates(toks: seq<Token>, pos: nat, acc: seq<Statement>)
    requires pos < |toks| && toks[pos] != Token.RightBrace && !ParseStatement(toks, pos).Success?
    ensures BlockItems(toks, pos, acc) == Fail(ParseStatement(toks, pos))
  {
  }

  /** The `elif` arms of an inline if are kept in the order they appear: the arm read first comes first. */
  lemma ElifOrder(toks: seq<Token>, pos: nat, acc: seq<ElifBranch>, arm: ElifBranch, p2: nat, p3: nat)
    requires pos < |toks|
    requires toks[pos] == Token.Elif
    requires ParseExpression(toks, pos + 1) == Success(arm.condition, p2) && toks[p2] == Token.Colon
    requires ParseExpression(toks, p2 + 1) == Success(arm.branch, p3)
    ensures ParseElifs(toks, pos, acc).Success? ==>
              |acc| < |ParseElifs(toks, pos, acc).value| && ParseElifs(toks, pos, acc).value[..|acc| + 1] == acc + [arm]
  {
    ElifStep(toks, pos, acc, arm, p2, p3);
  }

  /** One `elif c : b` arm is appended and the loop continues after it. */
  lemma ElifStep(toks: seq<Token>, p: nat, acc: seq<ElifBranch>, arm: ElifBranch, p2: nat, p3: nat)
    requires p < |toks| && toks[p] == Token.Elif
    requires ParseExpression(toks, p + 1) == Success(arm.condition, p2) && toks[p2] == Token.Colon
    requires ParseExpression(toks, p2 + 1) == Success(arm.branch, p3)
    ensures ParseElifs(toks, p, acc) == ParseElifs(toks, p3, acc + [arm])
  {
  }

  /**
   * An expression starting with `if` is an inline if; when no `else` follows
   * its arms, its else branch is `Nil`.
   */
  lemma MissingElseIsNil(toks: seq<Token>, p: nat, c: Expression, p2: nat, t: Expression, p3: nat,
                         arms: seq<ElifBranch>, p4: nat)
    requires p < |toks| && toks[p] == Token.If
    requires ParseExpression(toks, p + 1) == Success(c, p2) && toks[p2] == Token.Colon
    requires ParseExpression(toks, p2 + 1) == Success(t, p3)
    requires ParseElifs(toks, p3, []) == Success(arms, p4) && toks[p4] != Token.Else
    ensures ParseExpression(toks, p) == Success(InlineIf(c, t, arms, Nil), p4)
  {
    assert ParseInlineIf(toks, p) == Success(InlineIf(c, t, arms, Nil), p4);
  }

  /** An inline if with `else : e` keeps `e` as its else branch. */
  lemma ElseArm(toks: seq<Token>, p: nat, c: Expression, p2: nat, t: Expression, p3: nat,
                arms: seq<ElifBranch>, p4: nat, els: Expression, q: nat)
    requires p < |toks| && toks[p] == Token.If
    requires ParseExpression(toks, p + 1) == Success(c, p2) && toks[p2] == Token.Colon
    requires ParseExpression(toks, p2 + 1) == Success(t, p3)
    requires ParseElifs(toks, p3, []) == Success(arms, p4)
    requires toks[p4] == Token.Else && p4 + 1 < |toks| && toks[p4 + 1] == Token.Colon
    requires ParseExpression(toks, p4 + 2) == Success(els, q)
    ensures ParseExpression(toks, p) == Success(InlineIf(c, t, arms, els), q)
  {
    assert ParseInlineIf(toks, p) == Success(InlineIf(c, t, arms, els), q);
  }

  // ----------------------------------------------------- running off the end

  /**
   * A program whose last statement is an `if` without `else` panics: after the
   * then-block the parser looks for `else` one token past the end.
   */
  lemma TrailingIfPanics(ss: seq<Statement>)
    requires 0 < |ss| && forall j :: 0 <= j < |ss| ==> PrintableStatement(ss[j])
    requires OpenIf(ss[|ss| - 1])
    ensures Parse(RenderStatements(ss)) == Panics(|RenderStatements(ss)|)
  {
    var toks := RenderStatements(ss);
    assert ss[0..] == ss;
    assert Matches(toks, 0, toks) by {
      forall i | 0 <= i < |toks| ensures toks[0 + i] == At(toks, i) {
      }
    }
    ProgramPanics(toks, 0, ss, 0, []);
  }

  lemma {:induction false} ProgramPanics(toks: seq<Token>, p: nat, ss: seq<Statement>, i: nat, acc: seq<Statement>)
    requires i < |ss| && forall j :: i <= j < |ss| ==> PrintableStatement(ss[j])
    requires OpenIf(ss[|ss| - 1])
    requires Matches(toks, p, RenderStatements(ss[i..])) && p + |RenderStatements(ss[i..])| == |toks|
    ensures ParseFrom(toks, p, acc) == Panics(|toks|)
    decreases |ss| - i
  {
    if i + 1 < |ss| {
      var n := NextParses(toks, p, ss, i);
      ProgramStep(toks, p, acc, ss[i], n);
      ProgramPanics(toks, n, ss, i + 1, acc + [ss[i]]);
    } else {
      StatementsLayout(toks, p, ss, i);
      assert ss[i + 1..] == [];
      LastIfPanics(toks, p, ss[i]);
    }
  }

  /** An `if` without `else` printed at the very end of the tokens panics. */
  lemma LastIfPanics(toks: seq<Token>, p: nat, s: Statement)
    requires OpenIf(s) && PrintableStatement(s) && Matches(toks, p, RenderStatement(s))
    requires p + |RenderStatement(s)| == |toks|
    ensures ParseStatement(toks, p) == Panic(|toks|)
  {
    var q1, q2 := IfHead(toks, p, s);
    assert ParseStatement(toks, p) == ParseIfStatement(toks, p);
  }

  /** A declaration cut off after its name panics instead of reporting an error. */
  lemma TruncatedDeclarationPanics()
    ensures Parse([Token.Var, Token.Identifier("x")]) == Panics(2)
  {
    assert ParseStatement([Token.Var, Token.Identifier("x")], 0) == Panic(2);
  }

  /** A token that starts no statement, such as `EOF`, makes `parse` loop for ever once it is reached. */
  lemma EofSpins()
    ensures Parse([Token.Var, Token.Identifier("x"), Token.Assign, Token.NumberLiteral(1.0), Token.Semicolon, Token.EOF])
         == Diverges(5)
  {
    var toks := [Token.Var, Token.Identifier("x"), Token.Assign, Token.NumberLiteral(1.0), Token.Semicolon, Token.EOF];
    DeclarationThenStray(toks, "x", Expression.NumberLiteral(1.0));
  }

  /** `var x = v ;` followed by a token that starts no statement. */
  lemma DeclarationThenStray(toks: seq<Token>, x: string, v: Expression)
    requires Printable(v) && |Render(v)| == 1 && |toks| == 6
    requires toks[0] == Token.Var && toks[1] == Token.Identifier(x) && toks[2] == Token.Assign
    requires toks[3] == Render(v)[0] && toks[4] == Token.Semicolon && !StartsStatement(toks[5])
    ensures Parse(toks) == Diverges(5)
  {
    assert Matches(toks, 3, Render(v)) by {
      assert toks[3 + 0] == At(Render(v), 0);
    }
    ExpressionRoundTrip(toks, 3, v);
    DeclarationStep(toks, 0, x, None, 2, v, 4);
    var decl := VariableDeclaration(x, v, None);
    ProgramStep(toks, 0, [], decl, 5);
    DispatchProgress(toks, 5, [decl]);
  }
}
