/**
 * The values and the variable store of the luth-lang evaluator.
 *
 * Numbers are `real`. The rounding of f64 arithmetic, `powf`, float `%` and the
 * decimal rendering of numbers are parameters (`FloatOps`): every property here
 * holds whatever those operations compute, and none depends on NaN or
 * infinities, which the model leaves out.
 */
module RuntimeEnv {
  import opened Common
  import LuthAst

  datatype Value =
    | StringLiteral(text: string)
    | NumberLiteral(number: real)
    | BooleanLiteral(truth: bool)
    | Nil

  /** The f64 operations the evaluator uses on number payloads, and their `{}` rendering. */
  datatype FloatOps = FloatOps(
    add: (real, real) -> real,
    sub: (real, real) -> real,
    mul: (real, real) -> real,
    div: (real, real) -> real,
    rem: (real, real) -> real,
    pow: (real, real) -> real,
    show: real -> string)

  /** The six arithmetic operators implemented on values. */
  datatype ArithOp = Add | Sub | Mul | Div | Rem | Pow

  /** The float operation behind an arithmetic operator. */
  function FloatOf(ops: FloatOps, op: ArithOp): (real, real) -> real {
    match op
    case Add => ops.add
    case Sub => ops.sub
    case Mul => ops.mul
    case Div => ops.div
    case Rem => ops.rem
    case Pow => ops.pow
  }

  /** `+ - * / %` and `pow` on values: numbers combine, every other pair of variants gives `Nil`. */
  function Arith(ops: FloatOps, op: ArithOp, l: Value, r: Value): (v: Value)
    ensures v.NumberLiteral? || v.Nil?
    ensures v.NumberLiteral? <==> l.NumberLiteral? && r.NumberLiteral?
    ensures v.NumberLiteral? ==> v.number == FloatOf(ops, op)(l.number, r.number)
  {
    match (l, r)
    case (NumberLiteral(a), NumberLiteral(b)) => NumberLiteral(FloatOf(ops, op)(a, b))
    case _ => Nil
  }

  /** `PartialEq`: same variant and equal payloads; `Nil` equals `Nil`. */
  function ValueEq(a: Value, b: Value): (r: bool)
    ensures r <==> a == b
  {
    match (a, b)
    case (StringLiteral(s1), StringLiteral(s2)) => s1 == s2
    case (NumberLiteral(n1), NumberLiteral(n2)) => n1 == n2
    case (BooleanLiteral(b1), BooleanLiteral(b2)) => b1 == b2
    case (Nil, Nil) => true
    case _ => false
  }

  datatype Ordering = Less | Equal | Greater

  /** `PartialOrd`: only two numbers are ordered. */
  function Compare(a: Value, b: Value): (r: Option<Ordering>)
    ensures r.Some? <==> a.NumberLiteral? && b.NumberLiteral?
    ensures r == Some(Less) <==> a.NumberLiteral? && b.NumberLiteral? && a.number < b.number
    ensures r == Some(Greater) <==> a.NumberLiteral? && b.NumberLiteral? && a.number > b.number
  {
    match (a, b)
    case (NumberLiteral(x), NumberLiteral(y)) =>
      if x < y then Some(Less) else if x == y then Some(Equal) else Some(Greater)
    case _ => None
  }

  /** `<`, `<=`, `>` and `>=` as Rust derives them from `partial_cmp`: false whenever the values are not ordered. */
  function Below(a: Value, b: Value, orEqual: bool): (r: bool)
    ensures r <==> a.NumberLiteral? && b.NumberLiteral? && (a.number < b.number || (orEqual && a.number == b.number))
  {
    var c := Compare(a, b);
    c == Some(Less) || (orEqual && c == Some(Equal))
  }

  // ------------------------------------------------------------- the store

  /** A stored variable: its value and the type it was declared with, if any. */
  datatype Binding = Binding(value: Value, ty: Option<LuthAst.Type>)

  type Env = map<string, Binding>

  /** The value variants an annotation admits: String for strings, Int for numbers, Boolean for booleans; `Nil` for none. */
  predicate Admits(t: LuthAst.Type, v: Value) {
    match t
    case String => v.StringLiteral?
    case Int => v.NumberLiteral?
    case Boolean => v.BooleanLiteral?
  }

  /** `define`: binds the name to the value and the annotation, whatever was there, without checking one against the other. */
  function Define(env: Env, name: string, v: Value, ty: Option<LuthAst.Type>): (e: Env)
    ensures e.Keys == env.Keys + {name}
    ensures e[name] == Binding(v, ty)
    ensures forall k :: k in env && k != name ==> e[k] == env[k]
  {
    env[name := Binding(v, ty)]
  }

  /**
   * `assign`: a typed variable takes only a value its type admits, an untyped
   * one takes anything; the annotation is kept. An absent name and a rejected
   * value are errors, and the store is then left as it was.
   */
  function Assign(env: Env, name: string, v: Value): (r: Result<Env>)
    ensures r.Ok? <==> name in env && (env[name].ty.None? || Admits(env[name].ty.value, v))
    ensures r.Ok? ==> r.value.Keys == env.Keys && r.value[name] == Binding(v, env[name].ty)
    ensures r.Ok? ==> forall k :: k in env && k != name ==> r.value[k] == env[k]
    ensures r.Err? && name in env ==> r.msg == "Type mismatch for variable '" + name + "'"
    ensures r.Err? && name !in env ==> r.msg == "Variable '" + name + "' not declared"
  {
    if name in env && env[name].ty.Some? then
      var t := env[name].ty.value;
      match (v, t)
      case (StringLiteral(_), String) => Ok(env[name := Binding(v, Some(LuthAst.Type.String))])
      case (NumberLiteral(_), Int) => Ok(env[name := Binding(v, Some(LuthAst.Type.Int))])
      case (BooleanLiteral(_), Boolean) => Ok(env[name := Binding(v, Some(LuthAst.Type.Boolean))])
      case _ => Err("Type mismatch for variable '" + name + "'")
    else if name in env then Ok(env[name := Binding(v, None)])
    else Err("Variable '" + name + "' not declared")
  }

  /** `get`: the stored value, or an error for a name never defined. */
  function Get(env: Env, name: string): (r: Result<Value>)
    ensures r.Ok? <==> name in env
    ensures r.Ok? ==> r.value == env[name].value
    ensures r.Err? ==> r.msg == "Undefined variable '" + name + "'"
  {
    if name in env then Ok(env[name].value) else Err("Undefined variable '" + name + "'")
  }

  // -------------------------------------------------------------- properties

  /** Every typed variable holds a value its type admits. */
  predicate WellTyped(env: Env) {
    forall k :: k in env && env[k].ty.Some? ==> Admits(env[k].ty.value, env[k].value)
  }

  /** `assign` keeps every typed variable well typed. */
  lemma AssignPreservesWellTyped(env: Env, name: string, v: Value)
    requires WellTyped(env) && Assign(env, name, v).Ok?
    ensures WellTyped(Assign(env, name, v).value)
  {
  }

  /** `define` does not: `var x: String = 5;` stores a number under a String annotation. */
  lemma DefineSkipsTypeCheck(env: Env)
    ensures !WellTyped(Define(env, "x", NumberLiteral(5.0), Some(LuthAst.Type.String)))
  {
    var e := Define(env, "x", NumberLiteral(5.0), Some(LuthAst.Type.String));
    assert "x" in e && e["x"].ty.Some? && !Admits(e["x"].ty.value, e["x"].value);
  }

  /** `Nil` is admitted by no type, so assigning it to a typed variable always fails. */
  lemma NilNeverAdmitted(env: Env, name: string)
    requires name in env && env[name].ty.Some?
    ensures Assign(env, name, Nil) == Err("Type mismatch for variable '" + name + "'")
  {
  }

  /** What is defined or assigned is what `get` returns afterwards, and other names read as before. */
  lemma GetAfterUpdate(env: Env, name: string, other: string, v: Value, ty: Option<LuthAst.Type>)
    requires other != name
    ensures Get(Define(env, name, v, ty), name) == Ok(v)
    ensures Assign(env, name, v).Ok? ==> Get(Assign(env, name, v).value, name) == Ok(v)
    ensures Get(Define(env, name, v, ty), other) == Get(env, other)
    ensures Assign(env, name, v).Ok? ==> Get(Assign(env, name, v).value, other) == Get(env, other)
  {
  }

  /** Comparison agrees with equality on numbers: `Equal` exactly when `==` holds. */
  lemma CompareEqual(a: Value, b: Value)
    ensures Compare(a, b) == Some(Equal) <==> a.NumberLiteral? && ValueEq(a, b)
    ensures Below(a, b, true) <==> Below(a, b, false) || (a.NumberLiteral? && ValueEq(a, b))
  {
  }
}
