/**
 * Properties of the luth-lang evaluator, alone and together with the parser.
 *
 * Fuel is only a bound: a run that finishes with some fuel finishes the same
 * way with more. A run stops at the first statement that does not finish
 * normally. Two programs the parser accepts go wrong at run time: an
 * assignment `x = e;` stores `Nil` (or fails on a typed variable), because the
 * parser wraps its value in the `Assign` operator and the evaluator maps that
 * operator to `Nil`; and `x++` on a number declared with a non-Int annotation
 * panics inside `unwrap`.
 */
module RuntimeProperties {
  import opened Common
  import opened LuthToken
  import opened LuthAst
  import opened LuthParser
  import opened LuthPrinter
  import opened LuthStatementRoundTrip
  import opened RuntimeEnv
  import opened RuntimeInterp

  // -------------------------------------------------------------------- fuel

  /** A statement that finishes (normally or not) with some fuel finishes the same way with more. */
  lemma {:induction false} ExecFuel(ops: FloatOps, env: Env, s: Statement, out: seq<string>, fuel: nat, more: nat)
    requires fuel <= more && !Exec(ops, env, s, out, fuel).OutOfFuel?
    ensures Exec(ops, env, s, out, more) == Exec(ops, env, s, out, fuel)
    decreases fuel, s, 1
  {
    match s
    case Block(ss) => ExecListFuel(ops, env, ss, out, fuel, more);
    case If(c, t, el) =>
      match Evaluate(ops, env, c) {
        case Evaluated(x, env1) =>
          if Truthy(x) {
            ExecFuel(ops, env1, t, out, fuel, more);
          } else if el.Some? {
            ExecFuel(ops, env1, el.value, out, fuel, more);
          }
        case Halted(_) =>
      }
    case While(c, b) => LoopFuel(ops, env, c, b, out, fuel, more);
    case VariableDeclaration(_, _, _) =>
    case VariableAssignment(_, _, _) =>
    case Print(_) =>
  }

  lemma {:induction false} LoopFuel(ops: FloatOps, env: Env, c: Expression, b: Statement, out: seq<string>, fuel: nat, more: nat)
    requires fuel <= more && !Loop(ops, env, c, b, out, fuel).OutOfFuel?
    ensures Loop(ops, env, c, b, out, more) == Loop(ops, env, c, b, out, fuel)
    decreases fuel, b, 2
  {
    LoopUnfolds(ops, env, c, b, out, fuel);
    LoopUnfolds(ops, env, c, b, out, more);
    var cond := Evaluate(ops, env, c);
    if cond.Evaluated? && Truthy(cond.value) {
      ExecFuel(ops, cond.env, b, out, fuel - 1, more - 1);
      var body := Exec(ops, cond.env, b, out, fuel - 1);
      if body.Done? {
        LoopFuel(ops, body.env, c, b, body.out, fuel - 1, more - 1);
      }
    }
  }

  /** One iteration of `Loop`, with the outcomes named by their fields. */
  lemma LoopUnfolds(ops: FloatOps, env: Env, c: Expression, b: Statement, out: seq<string>, fuel: nat)
    requires fuel > 0
    ensures Loop(ops, env, c, b, out, fuel)
         == var cond := Evaluate(ops, env, c);
            if cond.Halted? then Stopped(cond.halt, out)
            else if !Truthy(cond.value) then Done(cond.env, out)
            else
              var body := Exec(ops, cond.env, b, out, fuel - 1);
              if body.Done? then Loop(ops, body.env, c, b, body.out, fuel - 1) else body
  {
  }

  /** A declaration and a `print` never end in an error and never run out of fuel, whatever the store. */
  lemma NeverFails(ops: FloatOps, env: Env, s: Statement, out: seq<string>, fuel: nat)
    requires s.VariableDeclaration? || s.Print?
    ensures !Exec(ops, env, s, out, fuel).Failed? && !Exec(ops, env, s, out, fuel).OutOfFuel?
  {
  }

  /** With fuel left, a `while` runs as an `if` whose branch is the body followed by the loop again. */
  lemma WhileUnfolds(ops: FloatOps, env: Env, c: Expression, b: Statement, out: seq<string>, fuel: nat)
    requires fuel > 0
    ensures Exec(ops, env, Statement.While(c, b), out, fuel)
         == Exec(ops, env, Statement.If(c, Statement.Block([b, Statement.While(c, b)]), None), out, fuel - 1)
  {
    var w := Statement.While(c, b);
    var cond := Evaluate(ops, env, c);
    if cond.Evaluated? && Truthy(cond.value) {
      TwoStatements(ops, cond.env, b, w, out, fuel - 1);
      assert Exec(ops, env, Statement.If(c, Statement.Block([b, w]), None), out, fuel - 1)
          == ExecList(ops, cond.env, [b, w], out, fuel - 1);
    }
  }

  /** Two statements in a list: the first, then the second from where the first finished normally. */
  lemma TwoStatements(ops: FloatOps, env: Env, s0: Statement, s1: Statement, out: seq<string>, fuel: nat)
    ensures ExecList(ops, env, [s0, s1], out, fuel)
         == var r0 := Exec(ops, env, s0, out, fuel);
            if r0.Done? then Exec(ops, r0.env, s1, r0.out, fuel) else r0
  {
    ExecListAppend(ops, env, [s0], [s1], out, fuel);
    assert [s0] + [s1] == [s0, s1];
    assert [s0][1..] == [] && [s1][1..] == [];
  }

  /** An `if` without `else` runs as the same `if` with an empty block as its `else` branch. */
  lemma MissingElseIsEmpty(ops: FloatOps, env: Env, c: Expression, t: Statement, out: seq<string>, fuel: nat)
    ensures Exec(ops, env, Statement.If(c, t, None), out, fuel)
         == Exec(ops, env, Statement.If(c, t, Some(Statement.Block([]))), out, fuel)
  {
    var cond := Evaluate(ops, env, c);
    if cond.Evaluated? {
      assert Exec(ops, cond.env, Statement.Block([]), out, fuel) == Done(cond.env, out);
    }
  }

  /** Negating the condition of an `if` with both branches swaps which branch runs. */
  lemma NegationSwapsBranches(ops: FloatOps, env: Env, c: Expression, t: Statement, e: Statement, out: seq<string>, fuel: nat)
    ensures Exec(ops, env, Statement.If(Expression.Unary(Operator.Not, c), e, Some(t)), out, fuel)
         == Exec(ops, env, Statement.If(c, t, Some(e)), out, fuel)
  {
  }

  lemma {:induction false} ExecListFuel(ops: FloatOps, env: Env, ss: seq<Statement>, out: seq<string>, fuel: nat, more: nat)
    requires fuel <= more && !ExecList(ops, env, ss, out, fuel).OutOfFuel?
    ensures ExecList(ops, env, ss, out, more) == ExecList(ops, env, ss, out, fuel)
    decreases fuel, ss, 0
  {
    if ss != [] {
      ExecFuel(ops, env, ss[0], out, fuel, more);
      match Exec(ops, env, ss[0], out, fuel)
      case Done(env1, out1) => ExecListFuel(ops, env1, ss[1..], out1, fuel, more);
      case Failed(_, _, _) =>
      case Stopped(_, _) =>
      case OutOfFuel =>
    }
  }

  /** `while true {}` never finishes, whatever the fuel. */
  lemma {:induction false} EndlessLoop(ops: FloatOps, env: Env, out: seq<string>, fuel: nat)
    ensures Exec(ops, env, Statement.While(Expression.BooleanLiteral(true), Block([])), out, fuel) == OutOfFuel
  {
    EndlessLoopSteps(ops, env, out, fuel);
  }

  lemma {:induction false} EndlessLoopSteps(ops: FloatOps, env: Env, out: seq<string>, fuel: nat)
    ensures Loop(ops, env, Expression.BooleanLiteral(true), Block([]), out, fuel) == OutOfFuel
    decreases fuel
  {
    if fuel > 0 {
      assert Exec(ops, env, Block([]), out, fuel - 1) == Done(env, out);
      EndlessLoopSteps(ops, env, out, fuel - 1);
    }
  }

  // -------------------------------------------------------------- fail fast

  /** Running `ss + ts` is running `ss`, then `ts` from where it finished normally; otherwise `ts` never runs. */
  lemma {:induction false} ExecListAppend(ops: FloatOps, env: Env, ss: seq<Statement>, ts: seq<Statement>, out: seq<string>, fuel: nat)
    ensures ExecList(ops, env, ss + ts, out, fuel)
         == match ExecList(ops, env, ss, out, fuel)
            case Done(env1, out1) => ExecList(ops, env1, ts, out1, fuel)
            case other => other
    decreases ss
  {
    if ss == [] {
      assert [] + ts == ts;
    } else {
      assert (ss + ts)[0] == ss[0] && (ss + ts)[1..] == ss[1..] + ts;
      match Exec(ops, env, ss[0], out, fuel)
      case Done(env1, out1) => ExecListAppend(ops, env1, ss[1..], ts, out1, fuel);
      case Failed(_, _, _) =>
      case Stopped(_, _) =>
      case OutOfFuel =>
    }
  }

  /** Once a statement fails or halts, no later statement runs: the program ends exactly as its failing prefix does. */
  lemma StopsAtFirstError(ops: FloatOps, ss: seq<Statement>, ts: seq<Statement>, fuel: nat)
    requires Interpret(ops, ss, fuel).Failed? || Interpret(ops, ss, fuel).Stopped?
    ensures Interpret(ops, ss + ts, fuel) == Interpret(ops, ss, fuel)
  {
    ExecListAppend(ops, map[], ss, ts, [], fuel);
  }

  // ------------------------------------------------------------ expressions

  /** The operator trees the parser's precedence levels build evaluate without halting and without touching the store. */
  lemma {:induction false} OperatorTreesArePure(ops: FloatOps, env: Env, e: Expression)
    requires Printable(e)
    ensures Evaluate(ops, env, e).Evaluated? && Evaluate(ops, env, e).env == env
  {
    match e
    case Binary(l, _, r) =>
      OperatorTreesArePure(ops, env, l);
      OperatorTreesArePure(ops, env, r);
    case Unary(_, x) =>
      OperatorTreesArePure(ops, env, x);
    case StringLiteral(_) =>
    case NumberLiteral(_) =>
    case BooleanLiteral(_) =>
    case Identifier(_) =>
  }

  /** A name that was never defined evaluates to `Nil` rather than an error. */
  lemma UnknownNameIsNil(ops: FloatOps, env: Env, x: string)
    requires x !in env
    ensures Evaluate(ops, env, Expression.Identifier(x)) == Evaluated(Value.Nil, env)
  {
  }

  /** The four orderings hold only between two numbers, as the real comparisons. */
  lemma Comparisons(ops: FloatOps, l: Value, r: Value)
    ensures BinaryValue(ops, Operator.LessThan, l, r).truth <==> l.NumberLiteral? && r.NumberLiteral? && l.number < r.number
    ensures BinaryValue(ops, Operator.LessThanEqual, l, r).truth <==> l.NumberLiteral? && r.NumberLiteral? && l.number <= r.number
    ensures BinaryValue(ops, Operator.GreaterThan, l, r).truth <==> l.NumberLiteral? && r.NumberLiteral? && l.number > r.number
    ensures BinaryValue(ops, Operator.GreaterThanEqual, l, r).truth <==> l.NumberLiteral? && r.NumberLiteral? && l.number >= r.number
    ensures BinaryValue(ops, Operator.EqualEqual, l, r) == Value.BooleanLiteral(l == r)
    ensures BinaryValue(ops, Operator.NotEqual, l, r) == Value.BooleanLiteral(l != r)
  {
  }

  /** `&&` and `||` give booleans of the operands' truthiness, and the marker operators give `Nil`. */
  lemma LogicalAndMarkers(ops: FloatOps, l: Value, r: Value)
    ensures BinaryValue(ops, Operator.And, l, r) == Value.BooleanLiteral(Truthy(l) && Truthy(r))
    ensures BinaryValue(ops, Operator.Or, l, r) == Value.BooleanLiteral(Truthy(l) || Truthy(r))
    ensures BinaryValue(ops, Operator.Assign, l, r) == Value.Nil && BinaryValue(ops, Operator.Not, l, r) == Value.Nil
  {
  }

  /** `false && x++` still increments `x`: both operands of a logical operator are evaluated. */
  lemma NoShortCircuit(ops: FloatOps, env: Env, x: string)
    requires x in env && env[x].value.NumberLiteral? && env[x].ty.None?
    ensures var moved := Value.NumberLiteral(ops.add(env[x].value.number, 1.0));
            Evaluate(ops, env, Binary(Expression.BooleanLiteral(false), Operator.And, Expression.Increment(Expression.Identifier(x))))
            == Evaluated(Value.BooleanLiteral(false), env[x := Binding(moved, None)])
  {
    CounterOnName(ops, env, x, true);
  }

  /**
   * `x++` and `x--` on a defined number write the moved number back when the
   * annotation admits it (or there is none) and panic otherwise; on anything
   * else they give `Nil` and write nothing.
   */
  lemma CounterOnName(ops: FloatOps, env: Env, x: string, up: bool)
    ensures var r := Counter(ops, env, Expression.Identifier(x), up);
            && (x !in env || !env[x].value.NumberLiteral? ==> r == Evaluated(Value.Nil, env))
            && (x in env && env[x].value.NumberLiteral? ==>
                  var n := env[x].value.number;
                  var moved := Value.NumberLiteral(if up then ops.add(n, 1.0) else ops.sub(n, 1.0));
                  && (env[x].ty.None? || env[x].ty == Some(LuthAst.Type.Int) ==> r == Evaluated(moved, env[x := Binding(moved, env[x].ty)]))
                  && (env[x].ty.Some? && env[x].ty != Some(LuthAst.Type.Int) ==> r == Halted(UnwrapPanic("Type mismatch for variable '" + x + "'"))))
  {
    assert Evaluate(ops, env, Expression.Identifier(x)) == Evaluated(if x in env then env[x].value else Value.Nil, env);
  }

  // ---------------------------------------------------- parser meets evaluator

  /** The statement the parser builds for `x = e;`. */
  function AssignmentStatement(x: string, e: Expression): Statement {
    VariableAssignment(x, Binary(Expression.Identifier(x), Operator.Assign, e), None)
  }

  /**
   * Executing the parser's assignment: the `Assign` marker evaluates to `Nil`,
   * so an untyped variable ends up holding `Nil`, a typed one rejects it, and
   * an undeclared one is reported.
   */
  lemma AssignmentStoresNil(ops: FloatOps, env: Env, x: string, e: Expression, out: seq<string>, fuel: nat)
    requires Printable(e)
    ensures x in env && env[x].ty.None? ==>
              Exec(ops, env, AssignmentStatement(x, e), out, fuel) == Done(env[x := Binding(Value.Nil, None)], out)
    ensures x in env && env[x].ty.Some? ==>
              Exec(ops, env, AssignmentStatement(x, e), out, fuel) == Failed("Type mismatch for variable '" + x + "'", env, out)
    ensures x !in env ==>
              Exec(ops, env, AssignmentStatement(x, e), out, fuel) == Failed("Variable '" + x + "' not declared", env, out)
  {
    OperatorTreesArePure(ops, env, e);
    assert Evaluate(ops, env, AssignmentStatement(x, e).value) == Evaluated(Value.Nil, env);
  }

  /** A two-statement program the printer renders parses back, provided the second is not an open `if`. */
  lemma PairParses(s0: Statement, s1: Statement)
    requires PrintableStatement(s0) && PrintableStatement(s1) && !OpenIf(s1)
    ensures Parse(RenderStatements([s0, s1])) == Returned(Ok([s0, s1]))
  {
    ProgramRoundTrip([s0, s1]);
  }

  /** Running two statements is running the first and, when it finishes normally, the second from there. */
  lemma PairRuns(ops: FloatOps, s0: Statement, s1: Statement, fuel: nat)
    ensures Interpret(ops, [s0, s1], fuel)
         == var r0 := Exec(ops, map[], s0, [], fuel);
            if r0.Done? then Exec(ops, r0.env, s1, r0.out, fuel) else r0
  {
    TwoStatements(ops, map[], s0, s1, [], fuel);
  }

  /**
   * `var x (: T)? = v; x = e;` parses back to these two statements, and
   * running them leaves `x` holding `Nil` when it is untyped and fails with a
   * type mismatch when it is typed, whatever `e` is.
   */
  lemma AssignmentBug(ops: FloatOps, x: string, v: Expression, ty: Option<LuthAst.Type>, e: Expression, fuel: nat)
    requires Printable(v) && Printable(e)
    ensures var prog := [VariableDeclaration(x, v, ty), AssignmentStatement(x, e)];
            && Parse(RenderStatements(prog)) == Returned(Ok(prog))
            && (ty.None? ==> Interpret(ops, prog, fuel) == Done(map[x := Binding(Value.Nil, None)], []))
            && (ty.Some? ==> && Evaluate(ops, map[], v).Evaluated?
                             && Interpret(ops, prog, fuel)
                                == Failed("Type mismatch for variable '" + x + "'", map[x := Binding(Evaluate(ops, map[], v).value, ty)], []))
  {
    PairParses(VariableDeclaration(x, v, ty), AssignmentStatement(x, e));
    AssignmentBugRuns(ops, x, v, ty, e, fuel);
  }

  /** The run half of `AssignmentBug`. */
  lemma AssignmentBugRuns(ops: FloatOps, x: string, v: Expression, ty: Option<LuthAst.Type>, e: Expression, fuel: nat)
    requires Printable(v) && Printable(e)
    ensures var prog := [VariableDeclaration(x, v, ty), AssignmentStatement(x, e)];
            && (ty.None? ==> Interpret(ops, prog, fuel) == Done(map[x := Binding(Value.Nil, None)], []))
            && (ty.Some? ==> && Evaluate(ops, map[], v).Evaluated?
                             && Interpret(ops, prog, fuel)
                                == Failed("Type mismatch for variable '" + x + "'", map[x := Binding(Evaluate(ops, map[], v).value, ty)], []))
  {
    PairRuns(ops, VariableDeclaration(x, v, ty), AssignmentStatement(x, e), fuel);
    DeclarationRuns(ops, x, v, ty, fuel);
    SecondAssignment(ops, x, Evaluate(ops, map[], v).value, ty, e, fuel);
  }

  /** The assignment after the declaration: `Nil` is stored when untyped, the mismatch is reported when typed. */
  lemma SecondAssignment(ops: FloatOps, x: string, w: Value, ty: Option<LuthAst.Type>, e: Expression, fuel: nat)
    requires Printable(e)
    ensures ty.None? ==> Exec(ops, map[x := Binding(w, ty)], AssignmentStatement(x, e), [], fuel)
                         == Done(map[x := Binding(Value.Nil, None)], [])
    ensures ty.Some? ==> Exec(ops, map[x := Binding(w, ty)], AssignmentStatement(x, e), [], fuel)
                         == Failed("Type mismatch for variable '" + x + "'", map[x := Binding(w, ty)], [])
  {
    var env := map[x := Binding(w, ty)];
    AssignmentStoresNil(ops, env, x, e, [], fuel);
    assert env[x := Binding(Value.Nil, None)] == map[x := Binding(Value.Nil, None)];
  }

  /** A printable declaration on the empty store defines its name with the value and the annotation. */
  lemma DeclarationRuns(ops: FloatOps, x: string, v: Expression, ty: Option<LuthAst.Type>, fuel: nat)
    requires Printable(v)
    ensures Evaluate(ops, map[], v).Evaluated?
    ensures Exec(ops, map[], VariableDeclaration(x, v, ty), [], fuel)
         == Done(map[x := Binding(Evaluate(ops, map[], v).value, ty)], [])
  {
    OperatorTreesArePure(ops, map[], v);
  }

  /**
   * `var x: T = n; x++;` with a number `n` and an annotation other than Int
   * parses back, and running it panics in `unwrap`: `define` accepted the
   * mismatched number, `assign` rejects the incremented one.
   */
  lemma IncrementPanics(ops: FloatOps, x: string, n: real, t: LuthAst.Type, fuel: nat)
    requires t != LuthAst.Type.Int
    ensures var prog := [VariableDeclaration(x, Expression.NumberLiteral(n), Some(t)),
                         VariableAssignment(x, Expression.Increment(Expression.Identifier(x)), None)];
            && Parse(RenderStatements(prog)) == Returned(Ok(prog))
            && Interpret(ops, prog, fuel) == Stopped(UnwrapPanic("Type mismatch for variable '" + x + "'"), [])
  {
    var s0 := VariableDeclaration(x, Expression.NumberLiteral(n), Some(t));
    var s1 := VariableAssignment(x, Expression.Increment(Expression.Identifier(x)), None);
    PairParses(s0, s1);
    PairRuns(ops, s0, s1, fuel);
    var env := map[x := Binding(Value.NumberLiteral(n), Some(t))];
    assert Exec(ops, map[], s0, [], fuel) == Done(env, []);
    CounterOnName(ops, env, x, true);
  }
}
