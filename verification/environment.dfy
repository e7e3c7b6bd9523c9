/** The persistent environment (axis_core_rs/src/env.rs). Every operation
    returns a new environment; none can change an existing one. */
module Environment {
  import opened Values

  datatype Option<+T> = None | Some(value: T)

  function Lookup(env: Env, name: string): Option<Value>
  {
    if name in env.bindings then Some(env.bindings[name]) else None
  }

  /** The environment with no bindings. */
  function Empty(): (env: Env)
    ensures forall n :: Lookup(env, n) == None
  {
    Env(map[])
  }

  /** `env` plus the binding `name` to `v`, shadowing any earlier binding of
      `name`; every other name keeps its binding in `env`. */
  function Extend(env: Env, name: string, v: Value): (r: Env)
    ensures Lookup(r, name) == Some(v)
    ensures forall m :: m != name ==> Lookup(r, m) == Lookup(env, m)
  {
    Env(env.bindings[name := v])
  }

  /** Two environments are equal exactly when every name looks up the same. */
  lemma {:induction false} EnvEquality(e1: Env, e2: Env)
    ensures e1 == e2 <==> forall n :: Lookup(e1, n) == Lookup(e2, n)
  {
    if forall n :: Lookup(e1, n) == Lookup(e2, n) {
      forall n
        ensures n in e1.bindings <==> n in e2.bindings
        ensures n in e1.bindings ==> e1.bindings[n] == e2.bindings[n]
      {
        assert Lookup(e1, n) == Lookup(e2, n);
      }
      assert e1.bindings == e2.bindings;
    }
  }

  /** Rebinding a name replaces the earlier binding, while the intermediate
      environment still holds the first value. */
  lemma {:induction false} ExtendShadows(e: Env, n: string, v1: Value, v2: Value)
    ensures Extend(Extend(e, n, v1), n, v2) == Extend(e, n, v2)
    ensures Lookup(Extend(e, n, v1), n) == Some(v1)
  {
    EnvEquality(Extend(Extend(e, n, v1), n, v2), Extend(e, n, v2));
  }

  /** Binding two different names in either order gives the same environment. */
  lemma {:induction false} ExtendCommutes(e: Env, a: string, x: Value, b: string, y: Value)
    requires a != b
    ensures Extend(Extend(e, a, x), b, y) == Extend(Extend(e, b, y), a, x)
  {
    EnvEquality(Extend(Extend(e, a, x), b, y), Extend(Extend(e, b, y), a, x));
  }
}
