/**
 * The earliest tree-walking interpreter (`src/interpreter`).
 *
 * Every statement is executed, whatever happened before: a failed assignment
 * is only reported, and an unknown name reads as `Nil`. `print` writes the
 * rendered value with no line break, so the output is one string that grows
 * by concatenation.
 *
 * The interpreter passes a declaration's annotation as a third argument to a
 * `define` that takes two; the annotation is dropped here, as the two-argument
 * `define` of the store has no place for it.
 */
module EarlyInterp {
  import opened Common
  import opened EarlySyntax
  import opened EarlyEnv

  /** The interpreter between two statements: the store and everything printed so far. */
  datatype State = State(env: Env, out: string)

  /** `Display`: strings as they are, numbers through the float rendering `show`, `true`/`false`, and `nil`. */
  function Display(show: real -> string, v: Value): (r: string)
    ensures v.StringLiteral? ==> r == v.text
    ensures v.Nil? ==> r == "nil"
    ensures v.BooleanLiteral? ==> (r == "true" <==> v.truth) && (r == "false" <==> !v.truth)
  {
    match v
    case StringLiteral(s) => s
    case NumberLiteral(n) => show(n)
    case BooleanLiteral(b) => if b then "true" else "false"
    case Nil => "nil"
  }

  /** `evaluate`: a literal is the value of the same variant, a name is what the store holds, and `Nil` when it holds nothing. */
  function Evaluate(env: Env, e: Expression): (r: Value)
    ensures e.StringLiteral? ==> r == Value.StringLiteral(e.text)
    ensures e.NumberLiteral? ==> r == Value.NumberLiteral(e.number)
    ensures e.BooleanLiteral? ==> r == Value.BooleanLiteral(e.truth)
    ensures e.Identifier? ==> (if e.name in env then r == env[e.name] else r.Nil?)
  {
    match e
    case StringLiteral(s) => Value.StringLiteral(s)
    case NumberLiteral(n) => Value.NumberLiteral(n)
    case BooleanLiteral(b) => Value.BooleanLiteral(b)
    case Identifier(x) => match Get(env, x) case Ok(v) => v case Err(_) => Value.Nil
  }

  /**
   * `execute`: a declaration defines the name whatever its annotation says;
   * an assignment to an undefined name leaves the store as it was; `print`
   * appends the rendering of its value.
   */
  function Exec(show: real -> string, st: State, s: Statement): (r: State)
    ensures st.env.Keys <= r.env.Keys
    ensures |st.out| <= |r.out| && r.out[..|st.out|] == st.out
    ensures !s.Print? ==> r.out == st.out
    ensures s.Print? ==> r.env == st.env
  {
    match s
    case VariableDeclaration(n, v, _) => State(Define(st.env, n, Evaluate(st.env, v)), st.out)
    case VariableAssignment(n, v, _) =>
      (match EarlyEnv.Assign(st.env, n, Evaluate(st.env, v))
       case Ok(env) => State(env, st.out)
       case Err(_) => st)
    case Print(v) => State(st.env, st.out + Display(show, Evaluate(st.env, v)))
  }

  /** The statements in order, each from the state the previous one left. */
  function Run(show: real -> string, st: State, ss: seq<Statement>): (r: State)
    decreases |ss|
  {
    if ss == [] then st else Run(show, Exec(show, st, ss[0]), ss[1..])
  }

  /** `interpret`: the program from an empty store, with nothing printed yet. */
  function Interpret(show: real -> string, ss: seq<Statement>): State {
    Run(show, State(map[], ""), ss)
  }
}
