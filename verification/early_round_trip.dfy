/**
 * A printer for the earliest syntax tree, and the round trip: the earliest
 * parser reads every printed program back, statement for statement.
 *
 * Every statement form ends in `;`, so, unlike the later generations, there
 * is no `else` to look ahead for and nothing is excluded but an assignment
 * carrying an annotation, which the parser never builds.
 */
module EarlyRoundTrip {
  import opened Common
  import opened EarlySyntax
  import opened EarlyParser

  /** The token of a literal or name. */
  function RenderExpression(e: Expression): (r: Token)
    ensures Atom(r) && AtomValue(r) == e
  {
    match e
    case StringLiteral(s) => Token.StringLiteral(s)
    case NumberLiteral(n) => Token.NumberLiteral(n)
    case BooleanLiteral(b) => Token.BooleanLiteral(b)
    case Identifier(x) => Token.Identifier(x)
  }

  /** The keyword of an annotation. */
  function RenderTypeName(ty: Type): (r: Token)
    ensures TypeOf(r) == Some(ty)
  {
    match ty
    case String => Token.StringType
    case Int => Token.IntType
    case Boolean => Token.BooleanType
  }

  function RenderType(ty: Option<Type>): seq<Token> {
    match ty
    case None => []
    case Some(t) => [Token.Colon, RenderTypeName(t)]
  }

  /** The statements the parser can build: an assignment never carries an annotation. */
  predicate Printable(s: Statement) {
    s.VariableAssignment? ==> s.value_type.None?
  }

  function RenderStatement(s: Statement): (r: seq<Token>)
    ensures |r| > 0 && StartsStatement(r[0])
  {
    match s
    case VariableDeclaration(n, v, ty) =>
      [Token.Var, Token.Identifier(n)] + RenderType(ty) + [Token.Assign, RenderExpression(v), Token.Semicolon]
    case VariableAssignment(n, v, _) => [Token.Identifier(n), Token.Assign, RenderExpression(v), Token.Semicolon]
    case Print(v) => [Token.Print, Token.LeftParen, RenderExpression(v), Token.RightParen, Token.Semicolon]
  }

  function RenderStatements(ss: seq<Statement>): seq<Token> {
    if ss == [] then [] else RenderStatement(ss[0]) + RenderStatements(ss[1..])
  }

  /** A printed statement in front of any tokens is read back, consuming exactly its tokens. */
  lemma StatementParses(toks: seq<Token>, p: nat, s: Statement)
    requires Printable(s) && p + |RenderStatement(s)| <= |toks|
    requires toks[p..p + |RenderStatement(s)|] == RenderStatement(s)
    ensures ParseStatement(toks, p) == Found(s, p + |RenderStatement(s)|)
  {
    Window(toks, p, RenderStatement(s));
    match s
    case VariableDeclaration(_, _, _) => DeclarationFound(toks, p, s);
    case VariableAssignment(_, _, _) => AssignmentFound(toks, p, s);
    case Print(_) => PrintFound(toks, p, s);
  }

  /** A window of `toks` equal to `r`, token by token. */
  lemma Window(toks: seq<Token>, p: nat, r: seq<Token>)
    requires p + |r| <= |toks| && toks[p..p + |r|] == r
    ensures forall i :: 0 <= i < |r| ==> toks[p + i] == r[i]
  {
    forall i | 0 <= i < |r| ensures toks[p + i] == r[i] {
      assert toks[p..p + |r|][i] == toks[p + i];
    }
  }

  lemma DeclarationFound(toks: seq<Token>, p: nat, s: Statement)
    requires s.VariableDeclaration? && Printable(s) && p + |RenderStatement(s)| <= |toks|
    requires forall i :: 0 <= i < |RenderStatement(s)| ==> toks[p + i] == RenderStatement(s)[i]
    ensures ParseStatement(toks, p) == Found(s, p + |RenderStatement(s)|)
  {
    if s.value_type.Some? {
      TypedFound(toks, p, s);
    } else {
      UntypedFound(toks, p, s);
    }
  }

  /** `var n : T = v ;`. */
  lemma TypedFound(toks: seq<Token>, p: nat, s: Statement)
    requires s.VariableDeclaration? && s.value_type.Some? && Printable(s) && p + |RenderStatement(s)| <= |toks|
    requires forall i :: 0 <= i < |RenderStatement(s)| ==> toks[p + i] == RenderStatement(s)[i]
    ensures ParseStatement(toks, p) == Found(s, p + |RenderStatement(s)|)
  {
    var r, n, v, t := RenderStatement(s), s.name, s.value, s.value_type.value;
    assert r == [Token.Var, Token.Identifier(n), Token.Colon, RenderTypeName(t), Token.Assign, RenderExpression(v), Token.Semicolon];
    assert toks[p] == r[0] == Token.Var && toks[p + 1] == r[1] == Token.Identifier(n);
    assert toks[p + 2] == r[2] == Token.Colon && toks[p + 3] == r[3] == RenderTypeName(t);
    assert toks[p + 4] == r[4] == Token.Assign && toks[p + 5] == r[5] == RenderExpression(v);
    assert toks[p + 6] == r[6] == Token.Semicolon;
    assert ParseStatement(toks, p) == ParseVariableDeclaration(toks, p);
  }

  /** `var n = v ;`. */
  lemma UntypedFound(toks: seq<Token>, p: nat, s: Statement)
    requires s.VariableDeclaration? && s.value_type.None? && Printable(s) && p + |RenderStatement(s)| <= |toks|
    requires forall i :: 0 <= i < |RenderStatement(s)| ==> toks[p + i] == RenderStatement(s)[i]
    ensures ParseStatement(toks, p) == Found(s, p + |RenderStatement(s)|)
  {
    var r, n, v := RenderStatement(s), s.name, s.value;
    assert r == [Token.Var, Token.Identifier(n), Token.Assign, RenderExpression(v), Token.Semicolon];
    assert toks[p] == r[0] == Token.Var && toks[p + 1] == r[1] == Token.Identifier(n);
    assert toks[p + 2] == r[2] == Token.Assign && toks[p + 3] == r[3] == RenderExpression(v);
    assert toks[p + 4] == r[4] == Token.Semicolon;
    assert ParseStatement(toks, p) == ParseVariableDeclaration(toks, p);
  }

  lemma AssignmentFound(toks: seq<Token>, p: nat, s: Statement)
    requires s.VariableAssignment? && Printable(s) && p + |RenderStatement(s)| <= |toks|
    requires forall i :: 0 <= i < |RenderStatement(s)| ==> toks[p + i] == RenderStatement(s)[i]
    ensures ParseStatement(toks, p) == Found(s, p + |RenderStatement(s)|)
  {
    var r, n, v := RenderStatement(s), s.name, s.value;
    assert r == [Token.Identifier(n), Token.Assign, RenderExpression(v), Token.Semicolon];
    assert toks[p] == r[0] == Token.Identifier(n) && toks[p + 1] == r[1] == Token.Assign;
    assert toks[p + 2] == r[2] == RenderExpression(v) && toks[p + 3] == r[3] == Token.Semicolon;
    assert ParseStatement(toks, p) == ParseVariableAssignment(toks, p);
  }

  lemma PrintFound(toks: seq<Token>, p: nat, s: Statement)
    requires s.Print? && Printable(s) && p + |RenderStatement(s)| <= |toks|
    requires forall i :: 0 <= i < |RenderStatement(s)| ==> toks[p + i] == RenderStatement(s)[i]
    ensures ParseStatement(toks, p) == Found(s, p + |RenderStatement(s)|)
  {
    var r, v := RenderStatement(s), s.printed;
    assert r == [Token.Print, Token.LeftParen, RenderExpression(v), Token.RightParen, Token.Semicolon];
    assert toks[p] == r[0] == Token.Print && toks[p + 1] == r[1] == Token.LeftParen;
    assert toks[p + 2] == r[2] == RenderExpression(v);
    assert toks[p + 3] == r[3] == Token.RightParen && toks[p + 4] == r[4] == Token.Semicolon;
    assert ParseStatement(toks, p) == ParsePrintStatement(toks, p);
  }

  /** The printed statements filling the rest of `toks` are kept in order after `acc`. */
  lemma {:induction false} ProgramParses(toks: seq<Token>, p: nat, ss: seq<Statement>, acc: seq<Statement>)
    requires p <= |toks| && toks[p..] == RenderStatements(ss)
    requires forall j :: 0 <= j < |ss| ==> Printable(ss[j])
    ensures ParseFrom(toks, p, acc) == Returned(Ok(acc + ss))
    decreases ss
  {
    if ss == [] {
      assert acc + ss == acc;
    } else {
      var n := HeadParses(toks, p, ss);
      ProgramStep(toks, p, acc, ss[0], n);
      ProgramParses(toks, n, ss[1..], acc + [ss[0]]);
      assert acc + [ss[0]] + ss[1..] == acc + ss;
    }
  }

  /** The first printed statement is read back, and the cursor lands on the printed rest. */
  lemma HeadParses(toks: seq<Token>, p: nat, ss: seq<Statement>) returns (n: nat)
    requires p <= |toks| && toks[p..] == RenderStatements(ss) && ss != []
    requires forall j :: 0 <= j < |ss| ==> Printable(ss[j])
    ensures p < n <= |toks| && ParseStatement(toks, p) == Found(ss[0], n)
    ensures toks[n..] == RenderStatements(ss[1..])
    ensures forall j :: 0 <= j < |ss[1..]| ==> Printable(ss[1..][j])
  {
    var r := RenderStatement(ss[0]);
    n := p + |r|;
    Suffix(toks, p, r, RenderStatements(ss[1..]));
    assert Printable(ss[0]);
    StatementParses(toks, p, ss[0]);
  }

  /** One statement at the top level is kept and the loop of `parse` continues after it. */
  lemma ProgramStep(toks: seq<Token>, p: nat, acc: seq<Statement>, s: Statement, n: nat)
    requires p < |toks| && ParseStatement(toks, p) == Found(s, n)
    ensures ParseFrom(toks, p, acc) == ParseFrom(toks, n, acc + [s])
  {
  }

  /** Where a window `r + rest` starts at `p`, `r` fills `p` up to `p + |r|` and `rest` the remainder. */
  lemma Suffix(toks: seq<Token>, p: nat, r: seq<Token>, rest: seq<Token>)
    requires p <= |toks| && toks[p..] == r + rest
    ensures p + |r| <= |toks| && toks[p..p + |r|] == r && toks[p + |r|..] == rest
  {
    assert toks[p..p + |r|] == toks[p..][..|r|];
    assert toks[p + |r|..] == toks[p..][|r|..];
  }

  /** Printing a program and parsing the tokens gives the program back. */
  lemma ProgramRoundTrip(ss: seq<Statement>)
    requires forall j :: 0 <= j < |ss| ==> Printable(ss[j])
    ensures Parse(RenderStatements(ss)) == Returned(Ok(ss))
  {
    var toks := RenderStatements(ss);
    assert toks[0..] == toks;
    ProgramParses(toks, 0, ss, []);
  }
}
