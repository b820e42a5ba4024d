/**
 * The luth-lang statement parser inverts the statement printer.
 *
 * A printed program is read back statement by statement: declarations with and
 * without a type annotation, the three assignment forms, `print`, `while`, and
 * `if` with and without `else`, each block collected until its `}`. The one
 * exception is an `if` without `else` at the very end of the program, where the
 * parser's look-ahead for `else` reads past the last token (see
 * `LuthParserProperties.TrailingIfPanics`).
 */
module LuthStatementRoundTrip {
  import opened Common
  import opened Windows
  import opened LuthToken
  import opened LuthAst
  import opened LuthParser
  import opened LuthPrinter

  // ------------------------------------------------ single steps of the parser

  /** `var n (: T)? = v ;` is one declaration; `t` is where `=` stands. */
  lemma DeclarationStep(toks: seq<Token>, p: nat, n: string, ty: Option<Type>, t: nat, v: Expression, q: nat)
    requires t < |toks| && p + 2 <= t && toks[p] == Token.Var && toks[p + 1] == Token.Identifier(n)
    requires ty.None? ==> t == p + 2
    requires ty.Some? ==> toks[p + 2] == Token.Colon && t == p + 4 && ParseType(toks, p + 3) == Success(ty.value, p + 4)
    requires toks[t] == Token.Assign
    requires ParseExpression(toks, t + 1) == Success(v, q) && toks[q] == Token.Semicolon
    ensures ParseStatement(toks, p) == Success(VariableDeclaration(n, v, ty), q + 1)
  {
    DeclarationBody(toks, p, n, ty, t, v, q);
    assert ParseStatement(toks, p) == ParseVariableDeclaration(toks, p);
  }

  /** `DeclarationStep` for `var_declaration` itself. */
  lemma DeclarationBody(toks: seq<Token>, p: nat, n: string, ty: Option<Type>, t: nat, v: Expression, q: nat)
    requires t < |toks| && p + 2 <= t && toks[p] == Token.Var && toks[p + 1] == Token.Identifier(n)
    requires ty.None? ==> t == p + 2
    requires ty.Some? ==> toks[p + 2] == Token.Colon && t == p + 4 && ParseType(toks, p + 3) == Success(ty.value, p + 4)
    requires toks[t] == Token.Assign
    requires ParseExpression(toks, t + 1) == Success(v, q) && toks[q] == Token.Semicolon
    ensures ParseVariableDeclaration(toks, p) == Success(VariableDeclaration(n, v, ty), q + 1)
  {
    if ty.Some? {
      TypedBody(toks, p, n, ty.value, v, q);
    } else {
      UntypedBody(toks, p, n, v, q);
    }
  }

  /** `var n : T = v ;` read by `var_declaration`. */
  lemma TypedBody(toks: seq<Token>, p: nat, n: string, ty: Type, v: Expression, q: nat)
    requires p + 4 < |toks| && toks[p] == Token.Var && toks[p + 1] == Token.Identifier(n)
    requires toks[p + 2] == Token.Colon && ParseType(toks, p + 3) == Success(ty, p + 4) && toks[p + 4] == Token.Assign
    requires ParseExpression(toks, p + 5) == Success(v, q) && toks[q] == Token.Semicolon
    ensures ParseVariableDeclaration(toks, p) == Success(VariableDeclaration(n, v, Some(ty)), q + 1)
  {
  }

  /** `var n = v ;` read by `var_declaration`. */
  lemma UntypedBody(toks: seq<Token>, p: nat, n: string, v: Expression, q: nat)
    requires p + 2 < |toks| && toks[p] == Token.Var && toks[p + 1] == Token.Identifier(n) && toks[p + 2] == Token.Assign
    requires ParseExpression(toks, p + 3) == Success(v, q) && toks[q] == Token.Semicolon
    ensures ParseVariableDeclaration(toks, p) == Success(VariableDeclaration(n, v, None), q + 1)
  {
  }

  /** `n = v ;` is an assignment whose value carries the `Assign` marker. */
  lemma AssignmentStep(toks: seq<Token>, p: nat, n: string, v: Expression, q: nat)
    requires p + 1 < |toks| && toks[p] == Token.Identifier(n) && toks[p + 1] == Token.Assign
    requires ParseExpression(toks, p + 2) == Success(v, q) && toks[q] == Token.Semicolon
    ensures ParseStatement(toks, p)
            == Success(VariableAssignment(n, Binary(Expression.Identifier(n), Operator.Assign, v), None), q + 1)
  {
    assert ParseStatement(toks, p) == ParseVariableAssignment(toks, p);
  }

  /** `n ++ ;` and `n -- ;`. */
  lemma CounterStep(toks: seq<Token>, p: nat, n: string)
    requires p + 2 < |toks| && toks[p] == Token.Identifier(n)
    requires toks[p + 1] == Token.Increment || toks[p + 1] == Token.Decrement
    requires toks[p + 2] == Token.Semicolon
    ensures toks[p + 1] == Token.Increment ==>
              ParseStatement(toks, p) == Success(VariableAssignment(n, Expression.Increment(Expression.Identifier(n)), None), p + 3)
    ensures toks[p + 1] == Token.Decrement ==>
              ParseStatement(toks, p) == Success(VariableAssignment(n, Expression.Decrement(Expression.Identifier(n)), None), p + 3)
  {
    assert ParseStatement(toks, p) == ParseVariableAssignment(toks, p);
  }

  /** `print ( v ) ;`. */
  lemma PrintStep(toks: seq<Token>, p: nat, v: Expression, q: nat)
    requires p + 1 < |toks| && toks[p] == Token.Print && toks[p + 1] == Token.LeftParen
    requires ParseExpression(toks, p + 2) == Success(v, q)
    requires q + 1 < |toks| && toks[q] == Token.RightParen && toks[q + 1] == Token.Semicolon
    ensures ParseStatement(toks, p) == Success(Statement.Print(v), q + 2)
  {
    assert ParseStatement(toks, p) == ParsePrintStatement(toks, p);
  }

  /** `while c { … }`. */
  lemma WhileStep(toks: seq<Token>, p: nat, c: Expression, q1: nat, b: Statement, q: nat)
    requires p < |toks| && toks[p] == Token.While
    requires ParseExpression(toks, p + 1) == Success(c, q1) && ParseBlock(toks, q1) == Success(b, q)
    ensures ParseStatement(toks, p) == Success(Statement.While(c, b), q)
  {
    assert ParseStatement(toks, p) == ParseWhileStatement(toks, p);
  }

  /** `if c { … }` followed by `else { … }` or by any other token. */
  lemma IfStep(toks: seq<Token>, p: nat, c: Expression, q1: nat, t: Statement, q2: nat, el: Option<Statement>, q: nat)
    requires p < |toks| && toks[p] == Token.If
    requires ParseExpression(toks, p + 1) == Success(c, q1) && ParseBlock(toks, q1) == Success(t, q2)
    requires q2 < |toks|
    requires el.None? ==> toks[q2] != Token.Else && q == q2
    requires el.Some? ==> toks[q2] == Token.Else && q2 + 1 <= |toks| && ParseBlock(toks, q2 + 1) == Success(el.value, q)
    ensures ParseStatement(toks, p) == Success(Statement.If(c, t, el), q)
  {
    if el.Some? {
      ElseBody(toks, p, c, q1, t, q2, el.value, q);
    } else {
      OpenBody(toks, p, c, q1, t, q2);
    }
    assert ParseStatement(toks, p) == ParseIfStatement(toks, p);
  }

  /** `if_statement` on `if c { … } else { … }`. */
  lemma ElseBody(toks: seq<Token>, p: nat, c: Expression, q1: nat, t: Statement, q2: nat, el: Statement, q: nat)
    requires p < |toks|
    requires ParseExpression(toks, p + 1) == Success(c, q1) && ParseBlock(toks, q1) == Success(t, q2)
    requires q2 < |toks| && toks[q2] == Token.Else && ParseBlock(toks, q2 + 1) == Success(el, q)
    ensures ParseIfStatement(toks, p) == Success(Statement.If(c, t, Some(el)), q)
  {
  }

  /** `if_statement` on `if c { … }` followed by a token other than `else`. */
  lemma OpenBody(toks: seq<Token>, p: nat, c: Expression, q1: nat, t: Statement, q2: nat)
    requires p < |toks|
    requires ParseExpression(toks, p + 1) == Success(c, q1) && ParseBlock(toks, q1) == Success(t, q2)
    requires q2 < |toks| && toks[q2] != Token.Else
    ensures ParseIfStatement(toks, p) == Success(Statement.If(c, t, None), q2)
  {
  }

  /** `{` followed by the items of a block up to its `}`. */
  lemma BlockStep(toks: seq<Token>, p: nat, ss: seq<Statement>, q: nat)
    requires p < |toks| && toks[p] == Token.LeftBrace && BlockItems(toks, p + 1, []) == Success(ss, q)
    ensures ParseBlock(toks, p) == Success(Block(ss), q + 1)
  {
  }

  /** One statement inside a block is appended and the block loop continues after it. */
  lemma ItemStep(toks: seq<Token>, p: nat, acc: seq<Statement>, s: Statement, n: nat)
    requires p < |toks| && toks[p] != Token.RightBrace && ParseStatement(toks, p) == Success(s, n)
    ensures BlockItems(toks, p, acc) == BlockItems(toks, n, acc + [s])
  {
  }

  /** One statement at the top level is kept and the loop of `parse` continues after it. */
  lemma ProgramStep(toks: seq<Token>, p: nat, acc: seq<Statement>, s: Statement, n: nat)
    requires p < |toks| && ParseStatement(toks, p) == Success(s, n)
    ensures ParseFrom(toks, p, acc) == ParseFrom(toks, n, acc + [s])
  {
  }

  // ----------------------------------------------------- layouts of the windows

  /** A printed block: `{`, the printed statements, `}`. */
  lemma BlockLayout(toks: seq<Token>, p: nat, b: Statement)
    requires b.Block? && Matches(toks, p, RenderBlock(b))
    ensures toks[p] == Token.LeftBrace && Matches(toks, p + 1, RenderStatements(b.statements))
    ensures p + 1 + |RenderStatements(b.statements)| < |toks|
    ensures toks[p + 1 + |RenderStatements(b.statements)|] == Token.RightBrace
    ensures |RenderBlock(b)| == |RenderStatements(b.statements)| + 2
  {
    Wrapped(toks, p, Token.LeftBrace, RenderStatements(b.statements), Token.RightBrace);
  }

  /** The printed statements from `i` on: statement `i`, then the rest. */
  lemma StatementsLayout(toks: seq<Token>, p: nat, ss: seq<Statement>, i: nat)
    requires i < |ss| && Matches(toks, p, RenderStatements(ss[i..]))
    ensures Matches(toks, p, RenderStatement(ss[i]))
    ensures Matches(toks, p + |RenderStatement(ss[i])|, RenderStatements(ss[i + 1..]))
    ensures |RenderStatements(ss[i..])| == |RenderStatement(ss[i])| + |RenderStatements(ss[i + 1..])|
  {
    assert ss[i..][0] == ss[i] && ss[i..][1..] == ss[i + 1..];
    Split(toks, p, RenderStatement(ss[i]), RenderStatements(ss[i + 1..]));
  }

  /** The token after statement `i` of a printed sequence, when one more statement follows. */
  lemma NextStatementStart(toks: seq<Token>, p: nat, ss: seq<Statement>, i: nat)
    requires i < |ss| && PrintableStatement(ss[i]) && Matches(toks, p, RenderStatements(ss[i..]))
    ensures p < |toks| && StartsStatement(toks[p])
  {
    StatementsLayout(toks, p, ss, i);
    Head(toks, p, RenderStatement(ss[i]));
  }

  // ---------------------------------------------------- statements read back

  /**
   * A printed statement is read back by `statement`, consuming exactly its
   * tokens; an `if` without `else` needs one more token, which is not `else`.
   */
  lemma {:induction false} StatementParses(toks: seq<Token>, p: nat, s: Statement)
    requires PrintableStatement(s) && Matches(toks, p, RenderStatement(s))
    requires OpenIf(s) ==> p + |RenderStatement(s)| < |toks| && toks[p + |RenderStatement(s)|] != Token.Else
    ensures ParseStatement(toks, p) == Success(s, p + |RenderStatement(s)|)
    decreases s, 2
  {
    match s
    case VariableDeclaration(_, _, _) => DeclarationParses(toks, p, s);
    case VariableAssignment(_, _, _) => AssignmentParses(toks, p, s);
    case Print(_) => PrintParses(toks, p, s);
    case While(_, _) => WhileParses(toks, p, s);
    case If(_, _, _) => IfParses(toks, p, s);
  }

  lemma {:induction false} DeclarationParses(toks: seq<Token>, p: nat, s: Statement)
    requires s.VariableDeclaration? && PrintableStatement(s) && Matches(toks, p, RenderStatement(s))
    ensures ParseStatement(toks, p) == Success(s, p + |RenderStatement(s)|)
    decreases s, 1
  {
    var t, q := DeclarationParts(toks, p, s);
    DeclarationStep(toks, p, s.name, s.value_type, t, s.value, q);
  }

  /** The parts of a printed declaration, each read back: annotation, `=`, value, `;`. */
  lemma DeclarationParts(toks: seq<Token>, p: nat, s: Statement) returns (t: nat, q: nat)
    requires s.VariableDeclaration? && PrintableStatement(s) && Matches(toks, p, RenderStatement(s))
    ensures t < |toks| && p + 2 <= t && toks[p] == Token.Var && toks[p + 1] == Token.Identifier(s.name)
    ensures s.value_type.None? ==> t == p + 2
    ensures s.value_type.Some? ==> toks[p + 2] == Token.Colon && t == p + 4
                                   && ParseType(toks, p + 3) == Success(s.value_type.value, p + 4)
    ensures toks[t] == Token.Assign
    ensures ParseExpression(toks, t + 1) == Success(s.value, q) && toks[q] == Token.Semicolon
    ensures q + 1 == p + |RenderStatement(s)|
  {
    t := DeclarationHead(toks, p, s);
    AnnotationParses(toks, p + 2, s.value_type);
    q := t + 1 + |Render(s.value)|;
    ExpressionRoundTrip(toks, t + 1, s.value);
  }

  /** The tokens of a printed declaration. */
  lemma DeclarationTokens(s: Statement)
    requires s.VariableDeclaration?
    ensures RenderStatement(s) == [Token.Var, Token.Identifier(s.name)] + RenderType(s.value_type) + [Token.Assign] + Render(s.value) + [Token.Semicolon]
  {
  }

  /** `var`, the name and the optional annotation of a printed declaration, up to its `=`. */
  lemma DeclarationHead(toks: seq<Token>, p: nat, s: Statement) returns (t: nat)
    requires s.VariableDeclaration? && Matches(toks, p, RenderStatement(s))
    ensures t < |toks| && toks[p] == Token.Var && toks[p + 1] == Token.Identifier(s.name)
    ensures t == p + 2 + |RenderType(s.value_type)| && Matches(toks, p + 2, RenderType(s.value_type))
    ensures toks[t] == Token.Assign && Matches(toks, t + 1, Render(s.value))
    ensures t + 1 + |Render(s.value)| < |toks| && toks[t + 1 + |Render(s.value)|] == Token.Semicolon
    ensures t + 2 + |Render(s.value)| == p + |RenderStatement(s)|
  {
    DeclarationTokens(s);
    var tt, rv := RenderType(s.value_type), Render(s.value);
    DeclarationLayout(toks, p, Token.Var, Token.Identifier(s.name), tt, Token.Assign, rv, Token.Semicolon);
    t := p + 2 + |tt|;
  }

  /** A printed annotation, or its absence, read back after the name. */
  lemma AnnotationParses(toks: seq<Token>, q: nat, ty: Option<Type>)
    requires Matches(toks, q, RenderType(ty))
    ensures ty.None? ==> |RenderType(ty)| == 0
    ensures ty.Some? ==> |RenderType(ty)| == 2 && toks[q] == Token.Colon && ParseType(toks, q + 1) == Success(ty.value, q + 2)
  {
    if ty.Some? {
      TypeParses(toks, q, ty);
    }
  }

  /** A printed annotation `: T` is read back by `parse_type` after its colon. */
  lemma TypeParses(toks: seq<Token>, q: nat, ty: Option<Type>)
    requires ty.Some? && Matches(toks, q, RenderType(ty))
    ensures |RenderType(ty)| == 2 && q + 2 <= |toks| && toks[q] == Token.Colon && ParseType(toks, q + 1) == Success(ty.value, q + 2)
  {
    match ty.value
    case String => Pair(toks, q, Token.Colon, Token.StringType);
    case Int => Pair(toks, q, Token.Colon, Token.IntType);
    case Boolean => Pair(toks, q, Token.Colon, Token.BooleanType);
  }

  lemma {:induction false} AssignmentParses(toks: seq<Token>, p: nat, s: Statement)
    requires s.VariableAssignment? && PrintableStatement(s) && Matches(toks, p, RenderStatement(s))
    ensures ParseStatement(toks, p) == Success(s, p + |RenderStatement(s)|)
    decreases s, 1
  {
    if s.value.Increment? || s.value.Decrement? {
      CounterParses(toks, p, s);
    } else {
      StoreParses(toks, p, s);
    }
  }

  /** A printed `n ++ ;` or `n -- ;` is read back. */
  lemma CounterParses(toks: seq<Token>, p: nat, s: Statement)
    requires s.VariableAssignment? && (s.value.Increment? || s.value.Decrement?)
    requires PrintableStatement(s) && Matches(toks, p, RenderStatement(s))
    ensures ParseStatement(toks, p) == Success(s, p + |RenderStatement(s)|)
  {
    var mid := if s.value.Increment? then [Token.Increment] else [Token.Decrement];
    assert RenderStatement(s) == [Token.Identifier(s.name)] + mid + [Token.Semicolon];
    Wrapped(toks, p, Token.Identifier(s.name), mid, Token.Semicolon);
    Single(toks, p + 1, mid[0]);
    CounterStep(toks, p, s.name);
  }

  /** A printed `n = v ;` is read back, with the `Assign` marker the parser puts around `v`. */
  lemma StoreParses(toks: seq<Token>, p: nat, s: Statement)
    requires s.VariableAssignment? && !s.value.Increment? && !s.value.Decrement?
    requires PrintableStatement(s) && Matches(toks, p, RenderStatement(s))
    ensures ParseStatement(toks, p) == Success(s, p + |RenderStatement(s)|)
  {
    var v := s.value;
    var mid := [Token.Assign] + Render(v.right);
    assert RenderStatement(s) == [Token.Identifier(s.name)] + mid + [Token.Semicolon];
    Wrapped(toks, p, Token.Identifier(s.name), mid, Token.Semicolon);
    Split(toks, p + 1, [Token.Assign], Render(v.right));
    Single(toks, p + 1, Token.Assign);
    ExpressionRoundTrip(toks, p + 2, v.right);
    AssignmentStep(toks, p, s.name, v.right, p + 2 + |Render(v.right)|);
  }

  lemma {:induction false} PrintParses(toks: seq<Token>, p: nat, s: Statement)
    requires s.Print? && PrintableStatement(s) && Matches(toks, p, RenderStatement(s))
    ensures ParseStatement(toks, p) == Success(s, p + |RenderStatement(s)|)
    decreases s, 1
  {
    PrintLayout(toks, p, Token.Print, Token.LeftParen, Render(s.printed), Token.RightParen, Token.Semicolon);
    ExpressionRoundTrip(toks, p + 2, s.printed);
    PrintStep(toks, p, s.printed, p + 2 + |Render(s.printed)|);
  }

  lemma {:induction false} WhileParses(toks: seq<Token>, p: nat, s: Statement)
    requires s.While? && PrintableStatement(s) && Matches(toks, p, RenderStatement(s))
    ensures ParseStatement(toks, p) == Success(s, p + |RenderStatement(s)|)
    decreases s, 1
  {
    var q1 := WhilePrefix(toks, p, s);
    BlockParses(toks, q1, s.body);
    WhileStep(toks, p, s.guard, q1, s.body, q1 + |RenderBlock(s.body)|);
  }

  /** The condition of a printed `while` is read back; its block follows. */
  lemma WhilePrefix(toks: seq<Token>, p: nat, s: Statement) returns (q1: nat)
    requires s.While? && PrintableStatement(s) && Matches(toks, p, RenderStatement(s))
    ensures p < |toks| && toks[p] == Token.While
    ensures ParseExpression(toks, p + 1) == Success(s.guard, q1)
    ensures PrintableBlock(s.body) && Matches(toks, q1, RenderBlock(s.body))
    ensures q1 + |RenderBlock(s.body)| == p + |RenderStatement(s)|
  {
    var rc, rb := Render(s.guard), RenderBlock(s.body);
    assert RenderStatement(s) == [Token.While] + rc + rb + [];
    GuardedLayout(toks, p, Token.While, rc, rb, []);
    q1 := p + 1 + |rc|;
    BlockLayout(toks, q1, s.body);
    ExpressionRoundTrip(toks, p + 1, s.guard);
  }

  lemma {:induction false} IfParses(toks: seq<Token>, p: nat, s: Statement)
    requires s.If? && PrintableStatement(s) && Matches(toks, p, RenderStatement(s))
    requires OpenIf(s) ==> p + |RenderStatement(s)| < |toks| && toks[p + |RenderStatement(s)|] != Token.Else
    ensures ParseStatement(toks, p) == Success(s, p + |RenderStatement(s)|)
    decreases s, 1
  {
    var q1, q2 := IfHead(toks, p, s);
    if s.else_branch.Some? {
      var q := ElseParses(toks, p, s, q2);
      IfStep(toks, p, s.condition, q1, s.then_branch, q2, s.else_branch, q);
    } else {
      IfStep(toks, p, s.condition, q1, s.then_branch, q2, s.else_branch, q2);
    }
  }

  /** The condition and the then-block of a printed `if`; what follows is its else part. */
  lemma {:induction false} IfHead(toks: seq<Token>, p: nat, s: Statement) returns (q1: nat, q2: nat)
    requires s.If? && PrintableStatement(s) && Matches(toks, p, RenderStatement(s))
    ensures p < |toks| && toks[p] == Token.If
    ensures ParseExpression(toks, p + 1) == Success(s.condition, q1)
    ensures ParseBlock(toks, q1) == Success(s.then_branch, q2)
    ensures q2 + |RenderElsePart(s.else_branch)| == p + |RenderStatement(s)|
    ensures Matches(toks, q2, RenderElsePart(s.else_branch))
    decreases s, 0
  {
    q1 := IfPrefix(toks, p, s);
    q2 := q1 + |RenderBlock(s.then_branch)|;
    BlockParses(toks, q1, s.then_branch);
  }

  /** The condition of a printed `if` is read back; its then-block and else part follow. */
  lemma IfPrefix(toks: seq<Token>, p: nat, s: Statement) returns (q1: nat)
    requires s.If? && PrintableStatement(s) && Matches(toks, p, RenderStatement(s))
    ensures p < |toks| && toks[p] == Token.If
    ensures ParseExpression(toks, p + 1) == Success(s.condition, q1)
    ensures PrintableBlock(s.then_branch) && Matches(toks, q1, RenderBlock(s.then_branch))
    ensures Matches(toks, q1 + |RenderBlock(s.then_branch)|, RenderElsePart(s.else_branch))
    ensures q1 + |RenderBlock(s.then_branch)| + |RenderElsePart(s.else_branch)| == p + |RenderStatement(s)|
  {
    var rc, rt := Render(s.condition), RenderBlock(s.then_branch);
    GuardedLayout(toks, p, Token.If, rc, rt, RenderElsePart(s.else_branch));
    q1 := p + 1 + |rc|;
    BlockLayout(toks, q1, s.then_branch);
    ExpressionRoundTrip(toks, p + 1, s.condition);
  }

  /** The `else` part of a printed `if`: `else` and a block. */
  lemma {:induction false} ElseParses(toks: seq<Token>, p: nat, s: Statement, q2: nat) returns (q: nat)
    requires s.If? && PrintableStatement(s) && s.else_branch.Some?
    requires Matches(toks, q2, RenderElsePart(s.else_branch))
    ensures q2 < |toks| && toks[q2] == Token.Else
    ensures ParseBlock(toks, q2 + 1) == Success(s.else_branch.value, q)
    ensures q == q2 + |RenderElsePart(s.else_branch)|
    decreases s, 0
  {
    var el := s.else_branch.value;
    Split(toks, q2, [Token.Else], RenderBlock(el));
    Single(toks, q2, Token.Else);
    BlockLayout(toks, q2 + 1, el);
    BlockParses(toks, q2 + 1, el);
    q := q2 + 1 + |RenderBlock(el)|;
  }

  /** A printed block is read back by `block`, its statements in order. */
  lemma {:induction false} BlockParses(toks: seq<Token>, p: nat, b: Statement)
    requires PrintableBlock(b) && Matches(toks, p, RenderBlock(b))
    ensures ParseBlock(toks, p) == Success(b, p + |RenderBlock(b)|)
    decreases b, 1, 0
  {
    BlockOpens(toks, p, b);
    ItemsParse(toks, p + 1, b.statements, 0, []);
    BlockStep(toks, p, [] + b.statements[0..], p + 1 + |RenderStatements(b.statements[0..])|);
  }

  /** The printed statements of `ss` from `i` on occupy `toks` from `p`, and `stop` follows them. */
  predicate PrintedBefore(toks: seq<Token>, p: nat, ss: seq<Statement>, i: nat, stop: Token) {
    && i <= |ss| && (forall j :: i <= j < |ss| ==> PrintableStatement(ss[j]))
    && Matches(toks, p, RenderStatements(ss[i..]))
    && p + |RenderStatements(ss[i..])| < |toks| && toks[p + |RenderStatements(ss[i..])|] == stop
  }

  /** A printed block opens with `{` and its statements, printed from the first on, end in front of the `}`. */
  lemma BlockOpens(toks: seq<Token>, p: nat, b: Statement)
    requires PrintableBlock(b) && Matches(toks, p, RenderBlock(b))
    ensures p < |toks| && toks[p] == Token.LeftBrace && b == Block([] + b.statements[0..])
    ensures PrintedBefore(toks, p + 1, b.statements, 0, Token.RightBrace)
    ensures p + 1 + |RenderStatements(b.statements[0..])| + 1 == p + |RenderBlock(b)|
  {
    BlockLayout(toks, p, b);
    assert b.statements[0..] == b.statements;
    assert [] + b.statements[0..] == b.statements;
  }

  /** The printed statements of a block from `i` on are collected after `acc`, up to the `}`. */
  lemma {:induction false} ItemsParse(toks: seq<Token>, p: nat, ss: seq<Statement>, i: nat, acc: seq<Statement>)
    requires PrintedBefore(toks, p, ss, i, Token.RightBrace)
    ensures BlockItems(toks, p, acc) == Success(acc + ss[i..], p + |RenderStatements(ss[i..])|)
    decreases ss, 0, |ss| - i
  {
    if i == |ss| {
      ItemsEnd(toks, p, ss, i, acc);
    } else {
      var n := ItemHead(toks, p, ss, i, acc);
      ItemsParse(toks, n, ss, i + 1, acc + [ss[i]]);
    }
  }

  /** At the `}` the collected statements are the result. */
  lemma ItemsEnd(toks: seq<Token>, p: nat, ss: seq<Statement>, i: nat, acc: seq<Statement>)
    requires i == |ss| && PrintedBefore(toks, p, ss, i, Token.RightBrace)
    ensures BlockItems(toks, p, acc) == Success(acc + ss[i..], p + |RenderStatements(ss[i..])|)
  {
    assert ss[i..] == [];
    assert acc + ss[i..] == acc;
  }

  /** One statement of a block is collected, and the rest of the block ends in front of the `}` again. */
  lemma ItemHead(toks: seq<Token>, p: nat, ss: seq<Statement>, i: nat, acc: seq<Statement>) returns (n: nat)
    requires i < |ss| && PrintedBefore(toks, p, ss, i, Token.RightBrace)
    ensures PrintedBefore(toks, n, ss, i + 1, Token.RightBrace)
    ensures n + |RenderStatements(ss[i + 1..])| == p + |RenderStatements(ss[i..])|
    ensures BlockItems(toks, p, acc) == BlockItems(toks, n, acc + [ss[i]])
    ensures acc + [ss[i]] + ss[i + 1..] == acc + ss[i..]
    decreases ss[i], 5
  {
    n := NextBefore(toks, p, ss, i, Token.RightBrace);
    ItemStep(toks, p, acc, ss[i], n);
    Snoc(acc, ss, i);
  }

  /** Statement `i` of printed statements that end in front of `stop` is read back, and the rest ends in front of `stop` too. */
  lemma NextBefore(toks: seq<Token>, p: nat, ss: seq<Statement>, i: nat, stop: Token) returns (n: nat)
    requires i < |ss| && stop != Token.Else && PrintedBefore(toks, p, ss, i, stop)
    ensures p < |toks| && StartsStatement(toks[p]) && ParseStatement(toks, p) == Success(ss[i], n)
    ensures PrintedBefore(toks, n, ss, i + 1, stop)
    ensures n + |RenderStatements(ss[i + 1..])| == p + |RenderStatements(ss[i..])|
    decreases ss[i], 4
  {
    var end := p + |RenderStatements(ss[i..])|;
    assert toks[end] != Token.Else;
    n := NextParses(toks, p, ss, i);
    assert n + |RenderStatements(ss[i + 1..])| == end;
  }

  /**
   * Statement `i` of a printed sequence is read back, and the cursor lands on
   * the rest; the token after the last one, if any, is not `else`.
   */
  lemma {:induction false} NextParses(toks: seq<Token>, p: nat, ss: seq<Statement>, i: nat) returns (n: nat)
    requires i < |ss| && forall j :: i <= j < |ss| ==> PrintableStatement(ss[j])
    requires Matches(toks, p, RenderStatements(ss[i..]))
    requires i + 1 == |ss| && OpenIf(ss[i]) ==>
               p + |RenderStatements(ss[i..])| < |toks| && toks[p + |RenderStatements(ss[i..])|] != Token.Else
    ensures p < |toks| && StartsStatement(toks[p])
    ensures ParseStatement(toks, p) == Success(ss[i], n)
    ensures Matches(toks, n, RenderStatements(ss[i + 1..]))
    ensures n + |RenderStatements(ss[i + 1..])| == p + |RenderStatements(ss[i..])|
    decreases ss[i], 3
  {
    n := NextLayout(toks, p, ss, i);
    assert OpenIf(ss[i]) ==> n < |toks| && toks[n] != Token.Else;
    StatementParses(toks, p, ss[i]);
  }

  /**
   * Statement `i` of a printed sequence starts at `p` and the rest starts at
   * `n`; when one more statement follows, the token at `n` starts it.
   */
  lemma NextLayout(toks: seq<Token>, p: nat, ss: seq<Statement>, i: nat) returns (n: nat)
    requires i < |ss| && forall j :: i <= j < |ss| ==> PrintableStatement(ss[j])
    requires Matches(toks, p, RenderStatements(ss[i..]))
    ensures p < |toks| && StartsStatement(toks[p])
    ensures Matches(toks, p, RenderStatement(ss[i])) && n == p + |RenderStatement(ss[i])|
    ensures Matches(toks, n, RenderStatements(ss[i + 1..]))
    ensures n + |RenderStatements(ss[i + 1..])| == p + |RenderStatements(ss[i..])|
    ensures i + 1 < |ss| ==> n < |toks| && toks[n] != Token.Else
    ensures i + 1 == |ss| ==> n == p + |RenderStatements(ss[i..])|
  {
    StatementsLayout(toks, p, ss, i);
    n := p + |RenderStatement(ss[i])|;
    if i + 1 < |ss| {
      NextStatementStart(toks, n, ss, i + 1);
    } else {
      assert ss[i + 1..] == [];
    }
    Head(toks, p, RenderStatement(ss[i]));
  }

  lemma Snoc<T>(acc: seq<T>, s: seq<T>, i: nat)
    requires i < |s|
    ensures acc + [s[i]] + s[i + 1..] == acc + s[i..]
  {
    assert s[i..] == [s[i]] + s[i + 1..];
  }

  // --------------------------------------------------------------- whole programs

  /** The printed statements of `ss` from `i` on, filling the rest of `toks`, are kept in order after `acc`. */
  lemma {:induction false} ProgramParses(toks: seq<Token>, p: nat, ss: seq<Statement>, i: nat, acc: seq<Statement>)
    requires i <= |ss| && forall j :: i <= j < |ss| ==> PrintableStatement(ss[j])
    requires 0 < |ss| ==> !OpenIf(ss[|ss| - 1])
    requires Matches(toks, p, RenderStatements(ss[i..])) && p + |RenderStatements(ss[i..])| == |toks|
    ensures ParseFrom(toks, p, acc) == Returned(Ok(acc + ss[i..]))
    decreases |ss| - i
  {
    if i == |ss| {
      assert ss[i..] == [];
      assert acc + ss[i..] == acc;
    } else {
      var n := NextParses(toks, p, ss, i);
      ProgramStep(toks, p, acc, ss[i], n);
      ProgramParses(toks, n, ss, i + 1, acc + [ss[i]]);
      Snoc(acc, ss, i);
    }
  }

  /**
   * Printing a program and parsing the tokens gives the program back, as long
   * as it does not end in an `if` without `else`.
   */
  lemma ProgramRoundTrip(ss: seq<Statement>)
    requires forall j :: 0 <= j < |ss| ==> PrintableStatement(ss[j])
    requires 0 < |ss| ==> !OpenIf(ss[|ss| - 1])
    ensures Parse(RenderStatements(ss)) == Returned(Ok(ss))
  {
    var toks := RenderStatements(ss);
    assert ss[0..] == ss;
    assert Matches(toks, 0, toks) by {
      forall i | 0 <= i < |toks| ensures toks[0 + i] == At(toks, i) {
      }
    }
    ProgramParses(toks, 0, ss, 0, []);
    assert [] + ss[0..] == ss;
  }
}
