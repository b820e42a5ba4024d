/**
 * The `src/runtime` statement parser inverts the statement printer.
 *
 * A printed program is read back statement by statement: declarations with and
 * without an annotation, assignments, `print`, and `if` with and without
 * `else`, whose branches are single statements. The exceptions are the ones
 * `PrintableStatement` and `PrintableProgram` rule out: an `if` ending without
 * `else` as the then-branch of an `if` with `else` (the `else` would be taken
 * by the inner `if`), and at the very end of the program (the look-ahead for
 * `else` reads past the last token).
 */
module RuntimeStatementRoundTrip {
  import opened Common
  import opened Windows
  import opened RuntimeToken
  import opened RuntimeAst
  import opened RuntimeParser
  import opened RuntimePrinter

  // ------------------------------------------------ single steps of the parser

  /** `var n (: T)? = v ;` is one declaration; `t` is where `=` stands. */
  lemma DeclarationStep(toks: seq<Token>, p: nat, n: string, ty: Option<Type>, t: nat, v: Expression, q: nat)
    requires t < |toks| && p + 2 <= t && toks[p] == Token.Var && toks[p + 1] == Token.Identifier(n)
    requires ty.None? ==> t == p + 2
    requires ty.Some? ==> toks[p + 2] == Token.Colon && t == p + 4 && ParseType(toks, p + 3) == Success(ty.value, p + 4)
    requires toks[t] == Token.Assign
    requires ParseExpression(toks, t + 1) == Success(v, q) && toks[q] == Token.Semicolon
    ensures ParseStatement(toks, p) == Success(VariableDeclaration(n, v, ty), q + 1)
  {
    assert ParseStatement(toks, p) == ParseVariableDeclaration(toks, p);
  }

  /** `n = v ;` is an assignment of the bare value. */
  lemma AssignmentStep(toks: seq<Token>, p: nat, n: string, v: Expression, q: nat)
    requires p + 1 < |toks| && toks[p] == Token.Identifier(n) && toks[p + 1] == Token.Assign
    requires ParseExpression(toks, p + 2) == Success(v, q) && toks[q] == Token.Semicolon
    ensures ParseStatement(toks, p) == Success(VariableAssignment(n, v, None), q + 1)
  {
    assert ParseStatement(toks, p) == ParseVariableAssignment(toks, p);
  }

  /** `print ( v ) ;`. */
  lemma PrintStep(toks: seq<Token>, p: nat, v: Expression, q: nat)
    requires p + 1 < |toks| && toks[p] == Token.Print && toks[p + 1] == Token.LeftParen
    requires ParseExpression(toks, p + 2) == Success(v, q)
    requires q + 1 < |toks| && toks[q] == Token.RightParen && toks[q + 1] == Token.Semicolon
    ensures ParseStatement(toks, p) == Success(Statement.Print(v), q + 2)
  {
    assert ParseStatement(toks, p) == ParsePrintStatement(toks, p);
  }

  /** `if c s` followed by `else s'` or by any other token. */
  lemma IfStep(toks: seq<Token>, p: nat, c: Expression, q1: nat, t: Statement, q2: nat, el: Option<Statement>, q: nat)
    requires p < |toks| && toks[p] == Token.If
    requires ParseExpression(toks, p + 1) == Success(c, q1) && ParseStatement(toks, q1) == Success(t, q2)
    requires q2 < |toks|
    requires el.None? ==> toks[q2] != Token.Else && q == q2
    requires el.Some? ==> toks[q2] == Token.Else && q2 + 1 <= |toks| && ParseStatement(toks, q2 + 1) == Success(el.value, q)
    ensures ParseStatement(toks, p) == Success(Statement.If(c, t, el), q)
  {
    assert ParseStatement(toks, p) == ParseIfStatement(toks, p);
  }

  /** One statement at the top level is kept and the loop of `parse` continues after it. */
  lemma ProgramStep(toks: seq<Token>, p: nat, acc: seq<Statement>, s: Statement, n: nat)
    requires p < |toks| && ParseStatement(toks, p) == Success(s, n)
    ensures ParseFrom(toks, p, acc) == ParseFrom(toks, n, acc + [s])
  {
  }

  // ----------------------------------------------------- layouts of the windows

  /** The window `[x, y] + a + [z]` of an assignment. */
  lemma AssignmentLayout(toks: seq<Token>, p: nat, x: Token, y: Token, a: seq<Token>, z: Token)
    requires Matches(toks, p, [x, y] + a + [z])
    ensures p + 1 < |toks| && toks[p] == x && toks[p + 1] == y && Matches(toks, p + 2, a)
    ensures p + 2 + |a| < |toks| && toks[p + 2 + |a|] == z
  {
    Split(toks, p, [x, y] + a, [z]);
    Split(toks, p, [x, y], a);
    Pair(toks, p, x, y);
    Single(toks, p + 2 + |a|, z);
  }

  /** The printed statements from `i` on: statement `i`, then the rest. */
  lemma StatementsLayout(toks: seq<Token>, p: nat, ss: seq<Statement>, i: nat)
    requires i < |ss| && (forall j :: 0 <= j < |ss| ==> PrintableStatement(ss[j]))
    requires Matches(toks, p, RenderStatements(ss[i..]))
    ensures Matches(toks, p, RenderStatement(ss[i]))
    ensures Matches(toks, p + |RenderStatement(ss[i])|, RenderStatements(ss[i + 1..]))
    ensures |RenderStatements(ss[i..])| == |RenderStatement(ss[i])| + |RenderStatements(ss[i + 1..])|
  {
    assert ss[i..][0] == ss[i] && ss[i..][1..] == ss[i + 1..];
    Split(toks, p, RenderStatement(ss[i]), RenderStatements(ss[i + 1..]));
  }

  /** The tokens of a printed declaration. */
  lemma DeclarationTokens(s: Statement)
    requires s.VariableDeclaration? && PrintableStatement(s)
    ensures Flat(s.value)
    ensures RenderStatement(s) == [Token.Var, Token.Identifier(s.name)] + RenderType(s.value_type) + [Token.Assign] + Render(s.value) + [Token.Semicolon]
  {
    ShapedIsFlat(s.value, 1);
  }

  /** The tokens of a printed `if`. */
  lemma IfTokens(s: Statement)
    requires s.If? && PrintableStatement(s)
    ensures Flat(s.condition) && PrintableStatement(s.then_branch)
    ensures RenderStatement(s) == [Token.If] + Render(s.condition) + RenderStatement(s.then_branch) + RenderElse(s.else_branch)
  {
    ShapedIsFlat(s.condition, 1);
  }

  /** The first token of a printed statement is a statement start, so it is neither `else` nor an operator. */
  lemma StatementStart(toks: seq<Token>, p: nat, s: Statement)
    requires PrintableStatement(s) && Matches(toks, p, RenderStatement(s))
    ensures p < |toks| && StartsStatement(toks[p]) && toks[p] != Token.Else && BindingLevel(toks[p]) == 0
  {
    Head(toks, p, RenderStatement(s));
  }

  // ---------------------------------------------------- statements read back

  /** A printed expression in front of a token that is no operator. */
  lemma ValueParses(toks: seq<Token>, p: nat, e: Expression)
    requires Shaped(e, 1) && Flat(e) && Matches(toks, p, Render(e))
    requires p + |Render(e)| < |toks| && BindingLevel(toks[p + |Render(e)|]) == 0
    ensures ParseExpression(toks, p) == Success(e, p + |Render(e)|)
  {
    ExpressionParses(toks, p, e);
  }

  /**
   * A printed statement is read back by `statement`, consuming exactly its
   * tokens; one that ends open needs one more token, which is not `else`.
   */
  lemma {:induction false} StatementParses(toks: seq<Token>, p: nat, s: Statement)
    requires PrintableStatement(s) && Matches(toks, p, RenderStatement(s))
    requires OpenEnd(s) ==> p + |RenderStatement(s)| < |toks| && toks[p + |RenderStatement(s)|] != Token.Else
    ensures ParseStatement(toks, p) == Success(s, p + |RenderStatement(s)|)
    decreases s, 3
  {
    match s
    case VariableDeclaration(_, _, _) => DeclarationParses(toks, p, s);
    case VariableAssignment(_, _, _) => AssignmentParses(toks, p, s);
    case Print(_) => PrintParses(toks, p, s);
    case If(_, _, _) => IfParses(toks, p, s);
  }

  lemma {:induction false} DeclarationParses(toks: seq<Token>, p: nat, s: Statement)
    requires s.VariableDeclaration? && PrintableStatement(s) && Matches(toks, p, RenderStatement(s))
    ensures ParseStatement(toks, p) == Success(s, p + |RenderStatement(s)|)
    decreases s, 1
  {
    var t, q := DeclarationParts(toks, p, s);
    DeclarationStep(toks, p, s.name, s.value_type, t, s.value, q);
  }

  /** The parts of a printed declaration, each read back: annotation, `=`, value, `;`. */
  lemma DeclarationParts(toks: seq<Token>, p: nat, s: Statement) returns (t: nat, q: nat)
    requires s.VariableDeclaration? && PrintableStatement(s) && Matches(toks, p, RenderStatement(s))
    ensures t < |toks| && p + 2 <= t && toks[p] == Token.Var && toks[p + 1] == Token.Identifier(s.name)
    ensures s.value_type.None? ==> t == p + 2
    ensures s.value_type.Some? ==> toks[p + 2] == Token.Colon && t == p + 4
                                   && ParseType(toks, p + 3) == Success(s.value_type.value, p + 4)
    ensures toks[t] == Token.Assign
    ensures ParseExpression(toks, t + 1) == Success(s.value, q) && toks[q] == Token.Semicolon
    ensures q + 1 == p + |RenderStatement(s)|
  {
    t := DeclarationHead(toks, p, s);
    q := t + 1 + |Render(s.value)|;
    ValueParses(toks, t + 1, s.value);
  }

  /** `var`, the name and the optional annotation of a printed declaration, up to its `=`. */
  lemma DeclarationHead(toks: seq<Token>, p: nat, s: Statement) returns (t: nat)
    requires s.VariableDeclaration? && PrintableStatement(s) && Matches(toks, p, RenderStatement(s))
    ensures Flat(s.value)
    ensures t < |toks| && p + 2 <= t && toks[p] == Token.Var && toks[p + 1] == Token.Identifier(s.name)
    ensures t == p + 2 + |RenderType(s.value_type)|
    ensures s.value_type.None? ==> t == p + 2
    ensures s.value_type.Some? ==> toks[p + 2] == Token.Colon && t == p + 4
                                   && ParseType(toks, p + 3) == Success(s.value_type.value, p + 4)
    ensures toks[t] == Token.Assign && Matches(toks, t + 1, Render(s.value))
    ensures t + 1 + |Render(s.value)| < |toks| && toks[t + 1 + |Render(s.value)|] == Token.Semicolon
    ensures t + 2 + |Render(s.value)| == p + |RenderStatement(s)|
  {
    DeclarationTokens(s);
    var tt, rv := RenderType(s.value_type), Render(s.value);
    DeclarationLayout(toks, p, Token.Var, Token.Identifier(s.name), tt, Token.Assign, rv, Token.Semicolon);
    t := p + 2 + |tt|;
    if s.value_type.Some? {
      TypeParses(toks, p + 2, s.value_type);
    }
  }

  /** A printed annotation `: T` is read back by `parse_type` after its colon. */
  lemma TypeParses(toks: seq<Token>, q: nat, ty: Option<Type>)
    requires ty.Some? && Matches(toks, q, RenderType(ty))
    ensures |RenderType(ty)| == 2 && q + 2 <= |toks| && toks[q] == Token.Colon && ParseType(toks, q + 1) == Success(ty.value, q + 2)
  {
    match ty.value
    case String => Pair(toks, q, Token.Colon, Token.StringType);
    case Int => Pair(toks, q, Token.Colon, Token.IntType);
    case Boolean => Pair(toks, q, Token.Colon, Token.BooleanType);
  }

  lemma {:induction false} AssignmentParses(toks: seq<Token>, p: nat, s: Statement)
    requires s.VariableAssignment? && PrintableStatement(s) && Matches(toks, p, RenderStatement(s))
    ensures ParseStatement(toks, p) == Success(s, p + |RenderStatement(s)|)
    decreases s, 1
  {
    ShapedIsFlat(s.value, 1);
    var rv := Render(s.value);
    assert RenderStatement(s) == [Token.Identifier(s.name), Token.Assign] + rv + [Token.Semicolon];
    AssignmentLayout(toks, p, Token.Identifier(s.name), Token.Assign, rv, Token.Semicolon);
    ValueParses(toks, p + 2, s.value);
    AssignmentStep(toks, p, s.name, s.value, p + 2 + |rv|);
  }

  lemma {:induction false} PrintParses(toks: seq<Token>, p: nat, s: Statement)
    requires s.Print? && PrintableStatement(s) && Matches(toks, p, RenderStatement(s))
    ensures ParseStatement(toks, p) == Success(s, p + |RenderStatement(s)|)
    decreases s, 1
  {
    ShapedIsFlat(s.printed, 1);
    var rv := Render(s.printed);
    PrintLayout(toks, p, Token.Print, Token.LeftParen, rv, Token.RightParen, Token.Semicolon);
    ValueParses(toks, p + 2, s.printed);
    PrintStep(toks, p, s.printed, p + 2 + |rv|);
  }

  lemma {:induction false} IfParses(toks: seq<Token>, p: nat, s: Statement)
    requires s.If? && PrintableStatement(s) && Matches(toks, p, RenderStatement(s))
    requires OpenEnd(s) ==> p + |RenderStatement(s)| < |toks| && toks[p + |RenderStatement(s)|] != Token.Else
    ensures ParseStatement(toks, p) == Success(s, p + |RenderStatement(s)|)
    decreases s, 2
  {
    if s.else_branch.Some? {
      IfElseParses(toks, p, s);
    } else {
      var q1, q2 := IfHead(toks, p, s);
      IfStep(toks, p, s.condition, q1, s.then_branch, q2, s.else_branch, q2);
    }
  }

  /** A printed `if` with an `else` part is read back. */
  lemma {:induction false} IfElseParses(toks: seq<Token>, p: nat, s: Statement)
    requires s.If? && s.else_branch.Some? && PrintableStatement(s) && Matches(toks, p, RenderStatement(s))
    requires OpenEnd(s) ==> p + |RenderStatement(s)| < |toks| && toks[p + |RenderStatement(s)|] != Token.Else
    ensures ParseStatement(toks, p) == Success(s, p + |RenderStatement(s)|)
    decreases s, 1
  {
    var q1, q2 := IfHead(toks, p, s);
    var q := ElseParses(toks, p, s, q2);
    IfStep(toks, p, s.condition, q1, s.then_branch, q2, s.else_branch, q);
  }

  /** The condition and the then-branch of a printed `if`; what follows is its else part. */
  lemma {:induction false} IfHead(toks: seq<Token>, p: nat, s: Statement) returns (q1: nat, q2: nat)
    requires s.If? && PrintableStatement(s) && Matches(toks, p, RenderStatement(s))
    requires OpenEnd(s) ==> p + |RenderStatement(s)| < |toks| && toks[p + |RenderStatement(s)|] != Token.Else
    ensures p < |toks| && toks[p] == Token.If
    ensures ParseExpression(toks, p + 1) == Success(s.condition, q1)
    ensures ParseStatement(toks, q1) == Success(s.then_branch, q2)
    ensures q2 + |RenderElse(s.else_branch)| == p + |RenderStatement(s)|
    ensures Matches(toks, q2, RenderElse(s.else_branch))
    ensures s.else_branch.None? ==> q2 < |toks| && toks[q2] != Token.Else
    decreases s, 0
  {
    q1 := IfPrefix(toks, p, s);
    q2 := q1 + |RenderStatement(s.then_branch)|;
    if s.else_branch.Some? {
      ElseStart(toks, q2, s.else_branch);
    }
    StatementParses(toks, q1, s.then_branch);
  }

  /** The condition of a printed `if` is read back; its then-branch and else part follow. */
  lemma IfPrefix(toks: seq<Token>, p: nat, s: Statement) returns (q1: nat)
    requires s.If? && PrintableStatement(s) && Matches(toks, p, RenderStatement(s))
    ensures p < |toks| && toks[p] == Token.If && ParseExpression(toks, p + 1) == Success(s.condition, q1)
    ensures PrintableStatement(s.then_branch) && Matches(toks, q1, RenderStatement(s.then_branch))
    ensures Matches(toks, q1 + |RenderStatement(s.then_branch)|, RenderElse(s.else_branch))
    ensures q1 + |RenderStatement(s.then_branch)| + |RenderElse(s.else_branch)| == p + |RenderStatement(s)|
    ensures s.else_branch.None? ==> RenderElse(s.else_branch) == []
  {
    q1 := IfLayout(toks, p, s);
    ValueParses(toks, p + 1, s.condition);
  }

  /** The tokens of a printed `if`: `if`, the condition, the then-statement and the else part. */
  lemma IfLayout(toks: seq<Token>, p: nat, s: Statement) returns (q1: nat)
    requires s.If? && PrintableStatement(s) && Matches(toks, p, RenderStatement(s))
    ensures p < |toks| && toks[p] == Token.If && Shaped(s.condition, 1) && Flat(s.condition)
    ensures Matches(toks, p + 1, Render(s.condition)) && q1 == p + 1 + |Render(s.condition)|
    ensures q1 < |toks| && BindingLevel(toks[q1]) == 0
    ensures PrintableStatement(s.then_branch) && Matches(toks, q1, RenderStatement(s.then_branch))
    ensures Matches(toks, q1 + |RenderStatement(s.then_branch)|, RenderElse(s.else_branch))
    ensures q1 + |RenderStatement(s.then_branch)| + |RenderElse(s.else_branch)| == p + |RenderStatement(s)|
  {
    IfTokens(s);
    var rc, rt, re := Render(s.condition), RenderStatement(s.then_branch), RenderElse(s.else_branch);
    GuardedLayout(toks, p, Token.If, rc, rt, re);
    q1 := p + 1 + |rc|;
    StatementStart(toks, q1, s.then_branch);
  }

  /** A printed else part starts with `else`. */
  lemma ElseStart(toks: seq<Token>, q2: nat, el: Option<Statement>)
    requires el.Some? && PrintableStatement(el.value) && Matches(toks, q2, RenderElse(el))
    ensures q2 < |toks| && toks[q2] == Token.Else
  {
    Head(toks, q2, RenderElse(el));
  }

  /** The `else` part of a printed `if`: `else` and a statement. */
  lemma {:induction false} ElseParses(toks: seq<Token>, p: nat, s: Statement, q2: nat) returns (q: nat)
    requires s.If? && PrintableStatement(s) && s.else_branch.Some?
    requires Matches(toks, q2, RenderElse(s.else_branch))
    requires OpenEnd(s) ==> q2 + |RenderElse(s.else_branch)| < |toks| && toks[q2 + |RenderElse(s.else_branch)|] != Token.Else
    ensures q2 < |toks| && toks[q2] == Token.Else
    ensures ParseStatement(toks, q2 + 1) == Success(s.else_branch.value, q)
    ensures q == q2 + |RenderElse(s.else_branch)|
    decreases s, 0
  {
    var el := s.else_branch.value;
    Split(toks, q2, [Token.Else], RenderStatement(el));
    Single(toks, q2, Token.Else);
    StatementParses(toks, q2 + 1, el);
    q := q2 + 1 + |RenderStatement(el)|;
  }

  /**
   * Statement `i` of a printed program is read back, and the cursor lands on
   * the rest; the last statement does not end open.
   */
  lemma {:induction false} NextParses(toks: seq<Token>, p: nat, ss: seq<Statement>, i: nat) returns (n: nat)
    requires i < |ss| && PrintableProgram(ss)
    requires Matches(toks, p, RenderStatements(ss[i..]))
    ensures p < |toks| && StartsStatement(toks[p])
    ensures ParseStatement(toks, p) == Success(ss[i], n)
    ensures Matches(toks, n, RenderStatements(ss[i + 1..]))
    ensures n + |RenderStatements(ss[i + 1..])| == p + |RenderStatements(ss[i..])|
  {
    StatementsLayout(toks, p, ss, i);
    n := p + |RenderStatement(ss[i])|;
    if i + 1 < |ss| {
      StatementsLayout(toks, n, ss, i + 1);
      StatementStart(toks, n, ss[i + 1]);
    } else {
      assert ss[i + 1..] == [];
    }
    StatementStart(toks, p, ss[i]);
    StatementParses(toks, p, ss[i]);
  }

  lemma Snoc<T>(acc: seq<T>, s: seq<T>, i: nat)
    requires i < |s|
    ensures acc + [s[i]] + s[i + 1..] == acc + s[i..]
  {
    assert s[i..] == [s[i]] + s[i + 1..];
  }

  // --------------------------------------------------------------- whole programs

  /** The printed statements of `ss` from `i` on, filling the rest of `toks`, are kept in order after `acc`. */
  lemma {:induction false} ProgramParses(toks: seq<Token>, p: nat, ss: seq<Statement>, i: nat, acc: seq<Statement>)
    requires i <= |ss| && PrintableProgram(ss)
    requires Matches(toks, p, RenderStatements(ss[i..])) && p + |RenderStatements(ss[i..])| == |toks|
    ensures ParseFrom(toks, p, acc) == Returned(Ok(acc + ss[i..]))
    decreases |ss| - i
  {
    if i == |ss| {
      assert ss[i..] == [];
      assert acc + ss[i..] == acc;
    } else {
      var n := NextParses(toks, p, ss, i);
      ProgramStep(toks, p, acc, ss[i], n);
      ProgramParses(toks, n, ss, i + 1, acc + [ss[i]]);
      Snoc(acc, ss, i);
    }
  }

  /** Printing a program and parsing the tokens gives the program back. */
  lemma ProgramRoundTrip(ss: seq<Statement>)
    requires PrintableProgram(ss)
    ensures Parse(RenderStatements(ss)) == Returned(Ok(ss))
  {
    var toks := RenderStatements(ss);
    assert ss[0..] == ss;
    assert Matches(toks, 0, toks) by {
      forall i | 0 <= i < |toks| ensures toks[0 + i] == At(toks, i) {
      }
    }
    ProgramParses(toks, 0, ss, 0, []);
    assert [] + ss[0..] == ss;
  }
}
