/**
 * Corrected versions of the luth-lang parser loop and evaluator, next to the
 * behaviour as written (in `LuthParserProperties` and `RuntimeProperties`).
 *
 * - The loop of `parse` stops at an `EOF` token, and a statement that fails
 *   without consuming anything is dropped together with its first token. The
 *   loop then always ends.
 * - `if` looks for `else` after its then-block only when a token is left, so
 *   an `if` without `else` can end the program. Every printed program, with
 *   or without an `EOF` after it, is then read back.
 * - An assignment `x = e;` stores the value of `e`: the `Assign` marker the
 *   parser wraps around `e` is taken off before the statement runs.
 * - A declaration checks its value against its annotation, as `assign` does,
 *   so the store stays well typed and `x++`/`x--` can no longer panic.
 *
 * The corrected assignment and declaration apply to top-level statements;
 * statements inside blocks run as written.
 */
module LuthCorrections {
  import opened Common
  import opened Windows
  import opened LuthToken
  import opened LuthAst
  import opened LuthParser
  import opened LuthPrinter
  import opened LuthStatementRoundTrip
  import opened RuntimeEnv
  import opened RuntimeInterp
  import opened RuntimeProperties

  // ----------------------------------------------- the look-ahead for `else`

  /**
   * `if_statement` as intended: the look-ahead for `else` after the then-block
   * first asks whether any token is left, and without one the `if` has no
   * `else` branch.
   */
  function ParseIfGuarded(toks: seq<Token>, pos: nat): (r: Parsed<Statement>)
    requires pos <= |toks|
    ensures r.Success? ==> r.value.If? && pos < r.next <= |toks|
    ensures r.Panic? ==> r.at == |toks|
    ensures r != ParseIfStatement(toks, pos) ==>
              ParseIfStatement(toks, pos) == Panic(|toks|) && r.Success? && r.next == |toks| && r.value.else_branch.None?
  {
    if pos == |toks| then Panic(pos)
    else
      var cond := ParseExpression(toks, pos + 1);
      if !cond.Success? then Fail(cond)
      else
        var thn := ParseBlock(toks, cond.next);
        if !thn.Success? then Fail(thn)
        else if thn.next < |toks| && toks[thn.next] == Token.Else then
          var els := ParseBlock(toks, thn.next + 1);
          if !els.Success? then Fail(els)
          else Success(Statement.If(cond.value, thn.value, Some(els.value)), els.next)
        else Success(Statement.If(cond.value, thn.value, None), thn.next)
  }

  /** `statement` with the guarded `if`; every other statement is read as written. */
  function ParseStatementGuarded(toks: seq<Token>, pos: nat): (r: Parsed<Statement>)
    requires pos <= |toks|
    ensures r.Panic? ==> r.at == |toks|
    ensures r != ParseStatement(toks, pos) ==>
              ParseStatement(toks, pos) == Panic(|toks|) && r.Success? && r.value.If? && r.next == |toks|
    ensures r.Success? ==> pos < r.next <= |toks|
    ensures r.Failure? ==> r.next <= |toks|
  {
    if pos < |toks| && toks[pos] == Token.If then ParseIfGuarded(toks, pos) else ParseStatement(toks, pos)
  }

  // ------------------------------------------------------ the top-level loop

  /**
   * The loop of `parse` as intended: it ends at the end of the tokens or at
   * `EOF`, and a failure that consumed nothing skips the token it failed on.
   */
  function ParseFromEnding(toks: seq<Token>, pos: nat, acc: seq<Statement>): (r: ParseOutcome)
    requires pos <= |toks|
    ensures !r.Diverges?
    ensures r.Returned? ==> r.result.Ok? && |acc| <= |r.result.value| && r.result.value[..|acc|] == acc
    ensures r.Panics? ==> r.at == |toks|
    decreases |toks| - pos
  {
    if pos == |toks| || toks[pos] == Token.EOF then Returned(Ok(acc))
    else
      match ParseStatementGuarded(toks, pos)
      case Success(s, n) =>
        var r := ParseFromEnding(toks, n, acc + [s]);
        KeepsPrefix(acc, [s], r);
        r
      case Failure(_, n) => ParseFromEnding(toks, if n == pos then pos + 1 else n, acc)
      case Panic(a) => Panics(a)
  }

  /** An outcome that keeps `acc + more` first keeps `acc` first. */
  lemma KeepsPrefix(acc: seq<Statement>, more: seq<Statement>, r: ParseOutcome)
    requires r.Returned? && r.result.Ok? ==> |acc + more| <= |r.result.value| && r.result.value[..|acc + more|] == acc + more
    ensures r.Returned? && r.result.Ok? ==> |acc| <= |r.result.value| && r.result.value[..|acc|] == acc
  {
    if r.Returned? && r.result.Ok? {
      assert r.result.value[..|acc|] == (acc + more)[..|acc|];
    }
  }

  /** The corrected `parse`: the whole token sequence from the first token. */
  function ParseEnding(toks: seq<Token>): (r: ParseOutcome)
    ensures !r.Diverges?
  {
    ParseFromEnding(toks, 0, [])
  }

  /** One statement in front of anything but `EOF` is kept and the corrected loop continues after it. */
  lemma EndingStep(toks: seq<Token>, p: nat, acc: seq<Statement>, s: Statement, n: nat)
    requires p < |toks| && toks[p] != Token.EOF && ParseStatement(toks, p) == Success(s, n)
    ensures ParseFromEnding(toks, p, acc) == ParseFromEnding(toks, n, acc + [s])
  {
  }

  /** The printed statements of `ss` from `i` on, followed by `EOF`, are kept in order after `acc`. */
  lemma {:induction false} EndingParses(toks: seq<Token>, p: nat, ss: seq<Statement>, i: nat, acc: seq<Statement>)
    requires PrintedBefore(toks, p, ss, i, Token.EOF)
    ensures ParseFromEnding(toks, p, acc) == Returned(Ok(acc + ss[i..]))
    decreases |ss| - i
  {
    if i == |ss| {
      EndingEnd(toks, p, ss, i, acc);
    } else {
      var n := EndingHead(toks, p, ss, i, acc);
      EndingParses(toks, n, ss, i + 1, acc + [ss[i]]);
    }
  }

  /** At `EOF` the statements kept so far are the program. */
  lemma EndingEnd(toks: seq<Token>, p: nat, ss: seq<Statement>, i: nat, acc: seq<Statement>)
    requires i == |ss| && PrintedBefore(toks, p, ss, i, Token.EOF)
    ensures ParseFromEnding(toks, p, acc) == Returned(Ok(acc + ss[i..]))
  {
    assert ss[i..] == [];
    assert acc + ss[i..] == acc;
  }

  /** One top-level statement is kept, and the rest of the program ends in front of `EOF` again. */
  lemma EndingHead(toks: seq<Token>, p: nat, ss: seq<Statement>, i: nat, acc: seq<Statement>) returns (n: nat)
    requires i < |ss| && PrintedBefore(toks, p, ss, i, Token.EOF)
    ensures PrintedBefore(toks, n, ss, i + 1, Token.EOF)
    ensures ParseFromEnding(toks, n, acc + [ss[i]]) == Returned(Ok(acc + [ss[i]] + ss[i + 1..])) ==>
              ParseFromEnding(toks, p, acc) == Returned(Ok(acc + ss[i..]))
  {
    n := NextBefore(toks, p, ss, i, Token.EOF);
    EndingStep(toks, p, acc, ss[i], n);
    Snoc(acc, ss, i);
  }

  /**
   * Every printed program followed by `EOF` is read back by the corrected
   * loop, also one that ends in an `if` without `else`.
   */
  lemma EndingRoundTrip(ss: seq<Statement>)
    requires forall j :: 0 <= j < |ss| ==> PrintableStatement(ss[j])
    ensures ParseEnding(RenderStatements(ss) + [Token.EOF]) == Returned(Ok(ss))
  {
    var r := RenderStatements(ss);
    var toks := r + [Token.EOF];
    assert ss[0..] == ss;
    assert Matches(toks, 0, r) by {
      forall i | 0 <= i < |r| ensures toks[0 + i] == At(r, i) {
      }
    }
    EndingParses(toks, 0, ss, 0, []);
    assert [] + ss[0..] == ss;
  }

  /** A printed `if` without `else` that ends the tokens is read back by the guarded `statement`. */
  lemma LastIfGuarded(toks: seq<Token>, p: nat, s: Statement)
    requires OpenIf(s) && PrintableStatement(s) && Matches(toks, p, RenderStatement(s))
    requires p + |RenderStatement(s)| == |toks|
    ensures ParseStatementGuarded(toks, p) == Success(s, |toks|)
  {
    var q1, q2 := IfHead(toks, p, s);
    assert RenderElsePart(s.else_branch) == [];
    assert ParseIfGuarded(toks, p) == Success(s, q2);
  }

  /** The printed statements of `ss` from `i` on, filling the rest of `toks`, are kept in order by the corrected loop. */
  lemma {:induction false} GuardedParses(toks: seq<Token>, p: nat, ss: seq<Statement>, i: nat, acc: seq<Statement>)
    requires i <= |ss| && forall j :: i <= j < |ss| ==> PrintableStatement(ss[j])
    requires Matches(toks, p, RenderStatements(ss[i..])) && p + |RenderStatements(ss[i..])| == |toks|
    ensures ParseFromEnding(toks, p, acc) == Returned(Ok(acc + ss[i..]))
    decreases |ss| - i
  {
    if i == |ss| {
      assert ss[i..] == [];
      assert acc + ss[i..] == acc;
    } else if i + 1 < |ss| || !OpenIf(ss[i]) {
      var n := NextParses(toks, p, ss, i);
      EndingStep(toks, p, acc, ss[i], n);
      GuardedParses(toks, n, ss, i + 1, acc + [ss[i]]);
      Snoc(acc, ss, i);
    } else {
      GuardedLast(toks, p, ss, i, acc);
    }
  }

  /** The last statement, an `if` without `else` that ends the tokens, is kept and the corrected loop stops. */
  lemma GuardedLast(toks: seq<Token>, p: nat, ss: seq<Statement>, i: nat, acc: seq<Statement>)
    requires i + 1 == |ss| && OpenIf(ss[i]) && PrintableStatement(ss[i])
    requires Matches(toks, p, RenderStatements(ss[i..])) && p + |RenderStatements(ss[i..])| == |toks|
    ensures ParseFromEnding(toks, p, acc) == Returned(Ok(acc + ss[i..]))
  {
    var n := NextLayout(toks, p, ss, i);
    LastIfGuarded(toks, p, ss[i]);
    assert ss[i..] == [ss[i]];
  }

  /**
   * Every printed program is read back by the corrected loop with the guarded
   * `if`, also one that ends in an `if` without `else` and has no `EOF` after it.
   */
  lemma GuardedRoundTrip(ss: seq<Statement>)
    requires forall j :: 0 <= j < |ss| ==> PrintableStatement(ss[j])
    ensures ParseEnding(RenderStatements(ss)) == Returned(Ok(ss))
  {
    var toks := RenderStatements(ss);
    assert ss[0..] == ss;
    assert Matches(toks, 0, toks) by {
      forall i | 0 <= i < |toks| ensures toks[0 + i] == At(toks, i) {
      }
    }
    GuardedParses(toks, 0, ss, 0, []);
    assert [] + ss[0..] == ss;
  }

  /** `if true { }` on its own is returned as an `if` without an else branch. */
  lemma OpenIfReturned()
    ensures ParseEnding([Token.If, Token.BooleanLiteral(true), Token.LeftBrace, Token.RightBrace])
         == Returned(Ok([Statement.If(Expression.BooleanLiteral(true), Statement.Block([]), None)]))
  {
    var s := Statement.If(Expression.BooleanLiteral(true), Statement.Block([]), None);
    assert PrintableStatement(s);
    assert RenderStatements([s]) == [Token.If, Token.BooleanLiteral(true), Token.LeftBrace, Token.RightBrace];
    GuardedRoundTrip([s]);
  }

  // ------------------------------------------------------------ assignment

  /** The value an assignment stores: the right side of the `Assign` marker the parser wraps it in. */
  function AssignedValue(s: Statement): (e: Expression)
    requires s.VariableAssignment?
    ensures e != s.value <==> s.value.Binary? && s.value.operator == Operator.Assign && s.value.left == Expression.Identifier(s.name)
  {
    if s.value.Binary? && s.value.operator == Operator.Assign && s.value.left == Expression.Identifier(s.name)
    then s.value.right
    else s.value
  }

  // ----------------------------------------------------------- declaration

  /** The message of `assign` for a value its variable's annotation does not admit. */
  function Mismatch(name: string): string {
    "Type mismatch for variable '" + name + "'"
  }

  /** `define` with the check `assign` makes: a value the annotation does not admit is an error. */
  function DefineChecked(env: Env, name: string, v: Value, ty: Option<LuthAst.Type>): (r: Result<Env>)
    ensures r.Ok? <==> ty.None? || Admits(ty.value, v)
    ensures r.Ok? ==> r.value == Define(env, name, v, ty)
    ensures r.Err? ==> r.msg == Mismatch(name)
  {
    if ty.Some? && !Admits(ty.value, v) then Err(Mismatch(name)) else Ok(Define(env, name, v, ty))
  }

  /** A checked declaration keeps a well-typed store well typed. */
  lemma DefineCheckedKeepsWellTyped(env: Env, name: string, v: Value, ty: Option<LuthAst.Type>)
    requires WellTyped(env) && DefineChecked(env, name, v, ty).Ok?
    ensures WellTyped(DefineChecked(env, name, v, ty).value)
  {
    var e := DefineChecked(env, name, v, ty).value;
    forall k | k in e && e[k].ty.Some? ensures Admits(e[k].ty.value, e[k].value) {
      if k != name {
        assert e[k] == env[k];
      }
    }
  }

  /** In a well-typed store `x++` and `x--` on a name never panic. */
  lemma CounterNeverPanics(ops: FloatOps, env: Env, x: string, up: bool)
    requires WellTyped(env)
    ensures Counter(ops, env, Expression.Identifier(x), up).Evaluated?
  {
    CounterOnName(ops, env, x, up);
    if x in env && env[x].value.NumberLiteral? && env[x].ty.Some? {
      assert Admits(env[x].ty.value, env[x].value);
    }
  }

  // ------------------------------------------------------- the corrected run

  /** A top-level statement as intended: checked declarations and unwrapped assignments. */
  function ExecCorrected(ops: FloatOps, env: Env, s: Statement, out: seq<string>, fuel: nat): (r: Run)
    ensures Extends(env, out, r)
  {
    match s
    case VariableDeclaration(n, v, ty) =>
      (match Evaluate(ops, env, v)
       case Halted(h) => Stopped(h, out)
       case Evaluated(x, env1) =>
         (match DefineChecked(env1, n, x, ty)
          case Ok(env2) => Done(env2, out)
          case Err(m) => Failed(m, env1, out)))
    case VariableAssignment(n, _, ty) => Exec(ops, env, VariableAssignment(n, AssignedValue(s), ty), out, fuel)
    case _ => Exec(ops, env, s, out, fuel)
  }

  /** The corrected `interpret`: top-level statements in order from an empty store, stopping at the first error. */
  function InterpretCorrected(ops: FloatOps, ss: seq<Statement>, fuel: nat): (r: Run)
    ensures Extends(map[], [], r)
    ensures ss == [] ==> r == Done(map[], [])
    ensures |ss| > 0 && !ExecCorrected(ops, map[], ss[0], [], fuel).Done? ==> r == ExecCorrected(ops, map[], ss[0], [], fuel)
  {
    RunCorrected(ops, map[], ss, [], fuel)
  }

  function RunCorrected(ops: FloatOps, env: Env, ss: seq<Statement>, out: seq<string>, fuel: nat): (r: Run)
    ensures Extends(env, out, r)
    decreases ss
  {
    if ss == [] then Done(env, out)
    else
      match ExecCorrected(ops, env, ss[0], out, fuel)
      case Done(env1, out1) => RunCorrected(ops, env1, ss[1..], out1, fuel)
      case other => other
  }

  /** Running two statements the corrected way: the first, then the second from where the first left off. */
  lemma PairRunsCorrected(ops: FloatOps, s0: Statement, s1: Statement, fuel: nat)
    ensures InterpretCorrected(ops, [s0, s1], fuel)
         == var r0 := ExecCorrected(ops, map[], s0, [], fuel);
            if r0.Done? then ExecCorrected(ops, r0.env, s1, r0.out, fuel) else r0
  {
    assert [s0, s1][1..] == [s1] && [s1][1..] == [];
    var r0 := ExecCorrected(ops, map[], s0, [], fuel);
    if r0.Done? {
      var r1 := ExecCorrected(ops, r0.env, s1, r0.out, fuel);
      assert RunCorrected(ops, r0.env, [s1], r0.out, fuel) == if r1.Done? then RunCorrected(ops, r1.env, [], r1.out, fuel) else r1;
    }
  }

  /**
   * `var x (: T)? = v; x = e;` run the corrected way: a value of `v` the
   * annotation does not admit is rejected at the declaration; otherwise `x`
   * ends up holding the value of `e` when the annotation admits it, and the
   * assignment fails with a type mismatch when it does not.
   */
  lemma AssignmentStoresValue(ops: FloatOps, x: string, v: Expression, ty: Option<LuthAst.Type>, e: Expression, fuel: nat)
    requires Printable(v) && Printable(e)
    ensures Evaluate(ops, map[], v).Evaluated?
    ensures var prog := [VariableDeclaration(x, v, ty), AssignmentStatement(x, e)];
            var dv := Evaluate(ops, map[], v).value;
            var env := map[x := Binding(dv, ty)];
            && Evaluate(ops, env, e).Evaluated?
            && (ty.Some? && !Admits(ty.value, dv) ==> InterpretCorrected(ops, prog, fuel) == Failed(Mismatch(x), map[], []))
            && (ty.None? || Admits(ty.value, dv) ==>
                  var ev := Evaluate(ops, env, e).value;
                  && (ty.None? || Admits(ty.value, ev) ==> InterpretCorrected(ops, prog, fuel) == Done(map[x := Binding(ev, ty)], []))
                  && (ty.Some? && !Admits(ty.value, ev) ==> InterpretCorrected(ops, prog, fuel) == Failed(Mismatch(x), env, [])))
  {
    var dv := DeclarationRuns(ops, x, v, ty, e, fuel);
    if ty.None? || Admits(ty.value, dv) {
      var env := map[x := Binding(dv, ty)];
      DeclarationCorrected(ops, x, v, ty, fuel);
      AssignmentRuns(ops, VariableDeclaration(x, v, ty), x, e, fuel, env);
      Overwrite(x, Binding(dv, ty), Binding(Evaluate(ops, env, e).value, ty));
    }
  }

  /** Writing a name of a one-name store again leaves a one-name store. */
  lemma Overwrite(x: string, b0: Binding, b1: Binding)
    ensures map[x := b0][x := b1] == map[x := b1]
  {
  }

  /** The declaration of the pair: rejected, and the program with it, when the annotation does not admit the value of `v`. */
  lemma DeclarationRuns(ops: FloatOps, x: string, v: Expression, ty: Option<LuthAst.Type>, e: Expression, fuel: nat) returns (dv: Value)
    requires Printable(v) && Printable(e)
    ensures Evaluate(ops, map[], v) == Evaluated(dv, map[])
    ensures Evaluate(ops, map[x := Binding(dv, ty)], e).Evaluated?
    ensures ty.Some? && !Admits(ty.value, dv) ==>
              InterpretCorrected(ops, [VariableDeclaration(x, v, ty), AssignmentStatement(x, e)], fuel) == Failed(Mismatch(x), map[], [])
  {
    DeclarationCorrected(ops, x, v, ty, fuel);
    OperatorTreesArePure(ops, map[], v);
    dv := Evaluate(ops, map[], v).value;
    OperatorTreesArePure(ops, map[x := Binding(dv, ty)], e);
    if ty.Some? && !Admits(ty.value, dv) {
      FirstStops(ops, VariableDeclaration(x, v, ty), AssignmentStatement(x, e), fuel);
    }
  }

  /** An assignment after a first statement that finished normally: the value of `e` is stored when the annotation admits it. */
  lemma AssignmentRuns(ops: FloatOps, s0: Statement, x: string, e: Expression, fuel: nat, env: Env)
    requires Printable(e) && x in env && ExecCorrected(ops, map[], s0, [], fuel) == Done(env, [])
    ensures Evaluate(ops, env, e).Evaluated?
    ensures var ev := Evaluate(ops, env, e).value;
            InterpretCorrected(ops, [s0, AssignmentStatement(x, e)], fuel)
            == if env[x].ty.None? || Admits(env[x].ty.value, ev) then Done(env[x := Binding(ev, env[x].ty)], []) else Failed(Mismatch(x), env, [])
  {
    AssignmentCorrected(ops, env, x, e, fuel);
    SecondRuns(ops, s0, AssignmentStatement(x, e), fuel, env);
  }

  /** When the first of two statements finishes normally from the empty store, the program ends as the second does from there. */
  lemma SecondRuns(ops: FloatOps, s0: Statement, s1: Statement, fuel: nat, env: Env)
    requires ExecCorrected(ops, map[], s0, [], fuel) == Done(env, [])
    ensures InterpretCorrected(ops, [s0, s1], fuel) == ExecCorrected(ops, env, s1, [], fuel)
  {
    PairRunsCorrected(ops, s0, s1, fuel);
  }

  /** When the first of two statements does not finish normally, the second never runs. */
  lemma FirstStops(ops: FloatOps, s0: Statement, s1: Statement, fuel: nat)
    requires !ExecCorrected(ops, map[], s0, [], fuel).Done?
    ensures InterpretCorrected(ops, [s0, s1], fuel) == ExecCorrected(ops, map[], s0, [], fuel)
  {
    PairRunsCorrected(ops, s0, s1, fuel);
  }

  /** A checked declaration of a printable value from the empty store. */
  lemma DeclarationCorrected(ops: FloatOps, x: string, v: Expression, ty: Option<LuthAst.Type>, fuel: nat)
    requires Printable(v)
    ensures Evaluate(ops, map[], v).Evaluated?
    ensures var dv := Evaluate(ops, map[], v).value;
            ExecCorrected(ops, map[], VariableDeclaration(x, v, ty), [], fuel)
            == if ty.None? || Admits(ty.value, dv) then Done(map[x := Binding(dv, ty)], []) else Failed(Mismatch(x), map[], [])
  {
    OperatorTreesArePure(ops, map[], v);
  }

  /** An unwrapped assignment of a printable value to a declared name. */
  lemma AssignmentCorrected(ops: FloatOps, env: Env, x: string, e: Expression, fuel: nat)
    requires Printable(e) && x in env
    ensures Evaluate(ops, env, e).Evaluated?
    ensures var ev := Evaluate(ops, env, e).value;
            ExecCorrected(ops, env, AssignmentStatement(x, e), [], fuel)
            == if env[x].ty.None? || Admits(env[x].ty.value, ev) then Done(env[x := Binding(ev, env[x].ty)], []) else Failed(Mismatch(x), env, [])
  {
    OperatorTreesArePure(ops, env, e);
    assert AssignedValue(AssignmentStatement(x, e)) == e;
  }

  /**
   * `var x: T = n; x++;` with a number `n` and an annotation other than Int,
   * run the corrected way, fails at the declaration with a type mismatch
   * instead of panicking in `++`.
   */
  lemma IncrementRejected(ops: FloatOps, x: string, n: real, t: LuthAst.Type, fuel: nat)
    requires t != LuthAst.Type.Int
    ensures var prog := [VariableDeclaration(x, Expression.NumberLiteral(n), Some(t)),
                         VariableAssignment(x, Expression.Increment(Expression.Identifier(x)), None)];
            InterpretCorrected(ops, prog, fuel) == Failed(Mismatch(x), map[], [])
  {
    var s0 := VariableDeclaration(x, Expression.NumberLiteral(n), Some(t));
    var s1 := VariableAssignment(x, Expression.Increment(Expression.Identifier(x)), None);
    PairRunsCorrected(ops, s0, s1, fuel);
  }
}
