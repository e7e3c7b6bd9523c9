/** Runtime values of the Axis core language (axis_core_rs/src/value.rs) and
    the environment type they close over (axis_core_rs/src/env.rs:7). The two
    are mutually recursive, so they are declared together here; the
    environment's operations live in module Environment. */
module Values {
  import Syntax

  /** A value: exactly five shapes. No variable, application, let or
      conditional is ever a value; unevaluated code appears only as the body
      of a closure. */
  datatype Value =
    | Int(i: Syntax.I64)
    | Bool(b: bool)
    | Tuple(items: seq<Value>)
    | Record(fields: seq<(string, Value)>)
    | Closure(param: string, body: Syntax.Expr, env: Env)

  /** An immutable map from names to values. Equality is equality of the
      bindings, independent of the order in which they were added. */
  datatype Env = Env(bindings: map<string, Value>)
}
