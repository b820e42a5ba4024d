/**
 * The untyped variable store of the earliest interpreter (`src/interpreter`).
 *
 * A flat map from names to values with no annotations: `define` writes
 * unconditionally, `assign` writes only names already present, and nothing
 * removes an entry.
 */
module EarlyEnv {
  import opened Common

  datatype Value =
    | StringLiteral(text: string)
    | NumberLiteral(number: real)
    | BooleanLiteral(truth: bool)
    | Nil

  type Env = map<string, Value>

  /** The message of `assign` and `get` for a name that is not defined. */
  function Undefined(name: string): string {
    "Undefined variable '" + name + "'."
  }

  /** `define`: inserts or overwrites the name with the value. */
  function Define(env: Env, name: string, value: Value): (r: Env)
    ensures r.Keys == env.Keys + {name}
    ensures r[name] == value
    ensures forall k :: k in env && k != name ==> r[k] == env[k]
  {
    env[name := value]
  }

  /** `assign`: overwrites a defined name with any value; an undefined name is an error and the store is not touched. */
  function Assign(env: Env, name: string, value: Value): (r: Result<Env>)
    ensures r.Ok? <==> name in env
    ensures r.Ok? ==> r.value.Keys == env.Keys && r.value[name] == value
                      && (forall k :: k in env && k != name ==> r.value[k] == env[k])
    ensures r.Err? ==> r.msg == Undefined(name)
  {
    if name in env then Ok(env[name := value]) else Err(Undefined(name))
  }

  /** `get`: the stored value, or the error for an undefined name. */
  function Get(env: Env, name: string): (r: Result<Value>)
    ensures r.Ok? <==> name in env
    ensures r.Ok? ==> r.value == env[name]
    ensures r.Err? ==> r.msg == Undefined(name)
  {
    if name in env then Ok(env[name]) else Err(Undefined(name))
  }

  /** A successful `assign` is a `define` of a name that was already there. */
  lemma AssignIsRedefine(env: Env, name: string, value: Value)
    requires name in env
    ensures Assign(env, name, value) == Ok(Define(env, name, value))
  {
  }

  /** Reading a name back after writing it gives the value written, whichever of the two writes it was. */
  lemma GetAfterWrite(env: Env, name: string, other: string, value: Value)
    ensures Get(Define(env, name, value), name) == Ok(value)
    ensures Assign(env, name, value).Ok? ==> Get(Assign(env, name, value).value, name) == Ok(value)
    ensures other != name ==> Get(Define(env, name, value), other) == Get(env, other)
  {
  }
}
