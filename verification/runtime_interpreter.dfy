/**
 * The tree-walking evaluator, paired with the luth-lang syntax tree.
 *
 * `Evaluate` never fails on an expression it has an arm for: unknown names
 * read as `Nil` and ill-typed operands give `Nil`. Two things stop it: the
 * inline if and the `Nil` expression, which the evaluator has no arm for
 * (the stub outcome `NoArm`, about which nothing is claimed), and a failing
 * `assign` inside `++`/`--`, which is an `unwrap` panic.
 *
 * Statements run against one store and append what `print` shows to an output
 * trace. A `while` loop spends one unit of fuel per iteration, so running out
 * of fuel is an explicit outcome rather than divergence.
 */
module RuntimeInterp {
  import opened Common
  import opened LuthAst
  import opened RuntimeEnv

  /** Why evaluation stopped without a value. */
  datatype Halt =
      /** An inline if or `Nil`: the evaluator has no arm for them. */
    | NoArm
      /** `assign` failed inside `++`/`--` and its `unwrap` panicked with this message. */
    | UnwrapPanic(msg: string)

  datatype Eval = Evaluated(value: Value, env: Env) | Halted(halt: Halt)

  /** `is_truthy`: non-zero numbers, non-empty strings and `true`; never `Nil`. */
  function Truthy(v: Value): (r: bool)
    ensures v.Nil? ==> !r
    ensures v.BooleanLiteral? ==> r == v.truth
    ensures v.StringLiteral? ==> (r <==> |v.text| > 0)
    ensures v.NumberLiteral? ==> (r <==> v.number != 0.0)
  {
    match v
    case NumberLiteral(n) => n != 0.0
    case StringLiteral(s) => |s| > 0
    case BooleanLiteral(b) => b
    case Nil => false
  }

  /** `Display`: strings as they are, numbers through the float rendering, `true`/`false`, and `nil`. */
  function Display(ops: FloatOps, v: Value): (r: string)
    ensures v.StringLiteral? ==> r == v.text
    ensures v.Nil? ==> r == "nil"
    ensures v.BooleanLiteral? ==> (r == "true" <==> v.truth) && (r == "false" <==> !v.truth)
  {
    match v
    case StringLiteral(s) => s
    case NumberLiteral(n) => ops.show(n)
    case BooleanLiteral(b) => if b then "true" else "false"
    case Nil => "nil"
  }

  /** The value of `l op r` once both operands are evaluated. */
  function BinaryValue(ops: FloatOps, op: Operator, l: Value, r: Value): Value {
    match op
    case Plus => Arith(ops, Add, l, r)
    case Minus => Arith(ops, Sub, l, r)
    case Star => Arith(ops, Mul, l, r)
    case Slash => Arith(ops, Div, l, r)
    case Percent => Arith(ops, Rem, l, r)
    case Pow => Arith(ops, ArithOp.Pow, l, r)
    case And => Value.BooleanLiteral(Truthy(l) && Truthy(r))
    case Or => Value.BooleanLiteral(Truthy(l) || Truthy(r))
    case EqualEqual => Value.BooleanLiteral(ValueEq(l, r))
    case NotEqual => Value.BooleanLiteral(!ValueEq(l, r))
    case LessThan => Value.BooleanLiteral(Compare(l, r) == Some(Less))
    case LessThanEqual => Value.BooleanLiteral(Compare(l, r) == Some(Less) || Compare(l, r) == Some(Equal))
    case GreaterThan => Value.BooleanLiteral(Compare(l, r) == Some(Greater))
    case GreaterThanEqual => Value.BooleanLiteral(Compare(l, r) == Some(Greater) || Compare(l, r) == Some(Equal))
    case Not => Value.Nil
    case Assign => Value.Nil
  }

  /** The store after evaluation has the same names with the same annotations, and stays well typed. */
  predicate Preserves(before: Env, after: Env) {
    && after.Keys == before.Keys
    && (forall k :: k in before ==> after[k].ty == before[k].ty)
    && (WellTyped(before) ==> WellTyped(after))
  }

  /**
   * `evaluate`: the left operand before the right (both always, also for
   * `&&`/`||`), the store threaded through; `++`/`--` write back through
   * `assign`, which can only change values.
   */
  function Evaluate(ops: FloatOps, env: Env, e: Expression): (r: Eval)
    ensures r.Evaluated? ==> Preserves(env, r.env)
    decreases e, 0
  {
    match e
    case StringLiteral(s) => Evaluated(Value.StringLiteral(s), env)
    case NumberLiteral(n) => Evaluated(Value.NumberLiteral(n), env)
    case BooleanLiteral(b) => Evaluated(Value.BooleanLiteral(b), env)
    case Identifier(x) => Evaluated(if Get(env, x).Ok? then Get(env, x).value else Value.Nil, env)
    case Binary(l, op, r) =>
      (match Evaluate(ops, env, l)
       case Halted(h) => Halted(h)
       case Evaluated(lv, env1) =>
        (match Evaluate(ops, env1, r)
         case Halted(h) => Halted(h)
         case Evaluated(rv, env2) => Evaluated(BinaryValue(ops, op, lv, rv), env2)))
    case Unary(op, x) =>
      (match Evaluate(ops, env, x)
       case Halted(h) => Halted(h)
       case Evaluated(v, env1) =>
         Evaluated(if op == Operator.Not then Value.BooleanLiteral(!Truthy(v)) else Value.Nil, env1))
    case Increment(x) => Counter(ops, env, x, true)
    case Decrement(x) => Counter(ops, env, x, false)
    case InlineIf(_, _, _, _) => Halted(NoArm)
    case Nil => Halted(NoArm)
  }

  /** `x++` (`up`) and `x--`: a number moves by one and, when `x` is a name, is written back; anything else gives `Nil`. */
  function Counter(ops: FloatOps, env: Env, x: Expression, up: bool): (r: Eval)
    ensures r.Evaluated? ==> Preserves(env, r.env)
    decreases x, 1
  {
    match Evaluate(ops, env, x)
    case Halted(h) => Halted(h)
    case Evaluated(v, env1) =>
      if !v.NumberLiteral? then Evaluated(Value.Nil, env1)
      else
        var moved := Value.NumberLiteral(if up then ops.add(v.number, 1.0) else ops.sub(v.number, 1.0));
        if !x.Identifier? then Evaluated(moved, env1)
        else
          match RuntimeEnv.Assign(env1, x.name, moved)
          case Ok(env2) => Evaluated(moved, env2)
          case Err(m) => Halted(UnwrapPanic(m))
  }

  // -------------------------------------------------------------- statements

  /** What running statements leads to: a store and an output trace, an error, a halt, or running out of fuel. */
  datatype Run =
    | Done(env: Env, out: seq<string>)
    | Failed(msg: string, env: Env, out: seq<string>)
    | Stopped(halt: Halt, out: seq<string>)
    | OutOfFuel

  /** The names of `before` are all still there, and the trace so far is kept. */
  predicate Extends(before: Env, out: seq<string>, r: Run) {
    && (r.Done? || r.Failed? ==> before.Keys <= r.env.Keys)
    && (!r.OutOfFuel? ==> |out| <= |r.out| && r.out[..|out|] == out)
  }

  /**
   * `execute`: a declaration always succeeds through `define`; an assignment
   * fails with the error of `assign`; `print` appends the rendered value; a
   * block runs its statements in order and stops at the first error; `if`
   * runs the branch the truthiness of the condition selects.
   */
  function Exec(ops: FloatOps, env: Env, s: Statement, out: seq<string>, fuel: nat): (r: Run)
    ensures Extends(env, out, r)
    decreases fuel, s, 1
  {
    match s
    case VariableDeclaration(n, v, ty) =>
      (match Evaluate(ops, env, v)
       case Halted(h) => Stopped(h, out)
       case Evaluated(x, env1) => Done(Define(env1, n, x, ty), out))
    case VariableAssignment(n, v, _) =>
      (match Evaluate(ops, env, v)
       case Halted(h) => Stopped(h, out)
       case Evaluated(x, env1) =>
         (match RuntimeEnv.Assign(env1, n, x)
          case Ok(env2) => Done(env2, out)
          case Err(m) => Failed(m, env1, out)))
    case Print(v) =>
      (match Evaluate(ops, env, v)
       case Halted(h) => Stopped(h, out)
       case Evaluated(x, env1) => Done(env1, out + [Display(ops, x)]))
    case Block(ss) => ExecList(ops, env, ss, out, fuel)
    case If(c, t, el) =>
      (match Evaluate(ops, env, c)
       case Halted(h) => Stopped(h, out)
       case Evaluated(x, env1) =>
         if Truthy(x) then Exec(ops, env1, t, out, fuel)
         else if el.Some? then Exec(ops, env1, el.value, out, fuel)
         else Done(env1, out))
    case While(c, b) => Loop(ops, env, c, b, out, fuel)
  }

  /** The `while` loop: the condition is evaluated again before every run of the body; each run costs one unit of fuel. */
  function Loop(ops: FloatOps, env: Env, c: Expression, b: Statement, out: seq<string>, fuel: nat): (r: Run)
    ensures Extends(env, out, r)
    decreases fuel, b, 2
  {
    if fuel == 0 then OutOfFuel
    else
      match Evaluate(ops, env, c)
      case Halted(h) => Stopped(h, out)
      case Evaluated(x, env1) =>
        if !Truthy(x) then Done(env1, out)
        else
          match Exec(ops, env1, b, out, fuel - 1)
          case Done(env2, out2) => Loop(ops, env2, c, b, out2, fuel - 1)
          case other => other
  }

  /** Statements in order against one store; the first that does not finish normally ends the run. */
  function ExecList(ops: FloatOps, env: Env, ss: seq<Statement>, out: seq<string>, fuel: nat): (r: Run)
    ensures Extends(env, out, r)
    decreases fuel, ss, 0
  {
    if ss == [] then Done(env, out)
    else
      match Exec(ops, env, ss[0], out, fuel)
      case Done(env1, out1) => ExecList(ops, env1, ss[1..], out1, fuel)
      case other => other
  }

  /** `interpret`: the program from an empty store and an empty trace; an error is reported and ends the run. */
  function Interpret(ops: FloatOps, ss: seq<Statement>, fuel: nat): (r: Run)
    ensures Extends(map[], [], r)
    ensures ss == [] ==> r == Done(map[], [])
    ensures |ss| > 0 && !Exec(ops, map[], ss[0], [], fuel).Done? ==> r == Exec(ops, map[], ss[0], [], fuel)
  {
    ExecList(ops, map[], ss, [], fuel)
  }
}
