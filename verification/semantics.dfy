/** What the evaluator promises, arm by arm (axis_core_rs/src/eval.rs).
    Each lemma holds for every fuel amount; `EvalFuelMonotone` turns any
    finished evaluation into the same outcome for all larger amounts. */
module Semantics {
  import opened Syntax
  import Values
  import opened Environment
  import opened Evaluator

  /** More fuel never changes an outcome that was reached: once evaluation
      finishes, it finishes with the same value or error for every larger
      bound. */
  lemma {:induction false} EvalFuelMonotone(e: Expr, env: Values.Env, f1: nat, f2: nat)
    requires f1 <= f2
    requires Eval(e, env, f1) != OutOfFuel
    ensures Eval(e, env, f2) == Eval(e, env, f1)
    decreases f1, e
  {
    match e
    case Int(_) =>
    case Bool(_) =>
    case Var(_) =>
    case Lambda(_, _) =>
    case Apply(func, arg) =>
      EvalFuelMonotone(func, env, f1, f2);
      if Eval(func, env, f1).Ok? {
        EvalFuelMonotone(arg, env, f1, f2);
        var fv := Eval(func, env, f1).value;
        if Eval(arg, env, f1).Ok? && fv.Closure? {
          EvalFuelMonotone(fv.body, Extend(fv.env, fv.param, Eval(arg, env, f1).value), f1 - 1, f2 - 1);
        }
      }
    case Let(name, value, body) =>
      EvalFuelMonotone(value, env, f1, f2);
      if Eval(value, env, f1).Ok? {
        EvalFuelMonotone(body, Extend(env, name, Eval(value, env, f1).value), f1, f2);
      }
    case If(cond, thenBranch, elseBranch) =>
      EvalFuelMonotone(cond, env, f1, f2);
      if Eval(cond, env, f1) == Ok(Values.Bool(true)) {
        EvalFuelMonotone(thenBranch, env, f1, f2);
      } else if Eval(cond, env, f1) == Ok(Values.Bool(false)) {
        EvalFuelMonotone(elseBranch, env, f1, f2);
      }
    case Tuple(items) =>
      EvalItemsFuelMonotone(items, env, f1, f2);
    case Record(fields) =>
      EvalFieldsFuelMonotone(fields, env, f1, f2);
  }

  lemma {:induction false} EvalItemsFuelMonotone(items: seq<Expr>, env: Values.Env, f1: nat, f2: nat)
    requires f1 <= f2
    requires EvalItems(items, env, f1) != OutOfFuel
    ensures EvalItems(items, env, f2) == EvalItems(items, env, f1)
    decreases f1, items
  {
    if items != [] {
      EvalFuelMonotone(items[0], env, f1, f2);
      if Eval(items[0], env, f1).Ok? {
        EvalItemsFuelMonotone(items[1..], env, f1, f2);
      }
    }
  }

  lemma {:induction false} EvalFieldsFuelMonotone(fields: seq<(string, Expr)>, env: Values.Env, f1: nat, f2: nat)
    requires f1 <= f2
    requires EvalFields(fields, env, f1) != OutOfFuel
    ensures EvalFields(fields, env, f2) == EvalFields(fields, env, f1)
    decreases f1, fields
  {
    if fields != [] {
      assert fields[0].1 < fields[0];
      EvalFuelMonotone(fields[0].1, env, f1, f2);
      if Eval(fields[0].1, env, f1).Ok? {
        EvalFieldsFuelMonotone(fields[1..], env, f1, f2);
      }
    }
  }

  /** Evaluation is deterministic across fuel: two bounds that both suffice
      give the same value or the same error. */
  lemma {:induction false} FinishedOutcomesAgree(e: Expr, env: Values.Env, f1: nat, f2: nat)
    requires Eval(e, env, f1) != OutOfFuel && Eval(e, env, f2) != OutOfFuel
    ensures Eval(e, env, f1) == Eval(e, env, f2)
  {
    if f1 <= f2 {
      EvalFuelMonotone(e, env, f1, f2);
    } else {
      EvalFuelMonotone(e, env, f2, f1);
    }
  }

  /** Literals evaluate to themselves in any environment, with any fuel. */
  lemma EvalLiterals(i: I64, b: bool, env: Values.Env, fuel: nat)
    ensures Eval(Int(i), env, fuel) == Ok(Values.Int(i))
    ensures Eval(Bool(b), env, fuel) == Ok(Values.Bool(b))
  {
  }

  /** A variable yields exactly the value it is bound to, and an unbound one
      fails with an error carrying its own name. */
  lemma EvalVar(name: string, env: Values.Env, fuel: nat, v: Values.Value)
    ensures Eval(Var(name), env, fuel) == Ok(v) <==> Lookup(env, name) == Some(v)
    ensures Eval(Var(name), env, fuel) == Err(UnboundVar(name)) <==> Lookup(env, name) == None
    ensures Eval(Var(name), env, fuel) != OutOfFuel
  {
  }

  /** A lambda never fails and never evaluates its body: it captures the
      current environment exactly, whatever the body is. */
  lemma EvalLambda(param: string, body: Expr, env: Values.Env, fuel: nat)
    ensures Eval(Lambda(param, body), env, fuel) == Ok(Values.Closure(param, body, env))
  {
  }

  /** Application fails with the function's failure first, then the
      argument's, and reports `NotAFunction` only when both succeed and the
      function is not a closure. */
  lemma EvalApplyErrorOrder(func: Expr, arg: Expr, env: Values.Env, fuel: nat)
    ensures !Eval(func, env, fuel).Ok? ==>
      Eval(Apply(func, arg), env, fuel) == Eval(func, env, fuel).PropagateFailure()
    ensures Eval(func, env, fuel).Ok? && !Eval(arg, env, fuel).Ok? ==>
      Eval(Apply(func, arg), env, fuel) == Eval(arg, env, fuel).PropagateFailure()
    ensures Eval(func, env, fuel).Ok? && Eval(arg, env, fuel).Ok? && !Eval(func, env, fuel).value.Closure? ==>
      Eval(Apply(func, arg), env, fuel) == Err(NotAFunction)
  {
  }

  /** Calling a closure evaluates its body in the closure's own environment
      extended with the argument; the caller's environment plays no part. */
  lemma EvalApplyClosure(func: Expr, arg: Expr, env: Values.Env, fuel: nat,
                         param: string, body: Expr, closureEnv: Values.Env, a: Values.Value)
    requires Eval(func, env, fuel) == Ok(Values.Closure(param, body, closureEnv))
    requires Eval(arg, env, fuel) == Ok(a)
    ensures fuel > 0 ==>
      Eval(Apply(func, arg), env, fuel) == Eval(body, Extend(closureEnv, param, a), fuel - 1)
    ensures fuel == 0 ==> Eval(Apply(func, arg), env, fuel) == OutOfFuel
  {
  }

  /** The same call made from two different environments gives the same
      outcome whenever the function and the argument evaluate alike there. */
  lemma {:induction false} ApplyIgnoresCallerEnv(func: Expr, arg: Expr, env1: Values.Env, env2: Values.Env, fuel: nat)
    requires Eval(func, env1, fuel) == Eval(func, env2, fuel)
    requires Eval(arg, env1, fuel) == Eval(arg, env2, fuel)
    ensures Eval(Apply(func, arg), env1, fuel) == Eval(Apply(func, arg), env2, fuel)
  {
    EvalApplyErrorOrder(func, arg, env1, fuel);
    EvalApplyErrorOrder(func, arg, env2, fuel);
  }

  /** `let` evaluates its value under the outer environment and only the
      body sees the new binding. */
  lemma EvalLet(name: string, value: Expr, body: Expr, env: Values.Env, fuel: nat)
    ensures !Eval(value, env, fuel).Ok? ==>
      Eval(Let(name, value, body), env, fuel) == Eval(value, env, fuel).PropagateFailure()
    ensures Eval(value, env, fuel).Ok? ==>
      Eval(Let(name, value, body), env, fuel) == Eval(body, Extend(env, name, Eval(value, env, fuel).value), fuel)
  {
  }

  /** `let` is not recursive: a value that mentions the bound name does not
      see it. */
  lemma {:induction false} LetIsNotRecursive(name: string, body: Expr, fuel: nat)
    ensures Eval(Let(name, Var(name), body), Empty(), fuel) == Err(UnboundVar(name))
  {
    EvalVar(name, Empty(), fuel, Values.Int(0));
  }

  /** A true condition gives exactly the then-branch's outcome; the else
      branch is never evaluated, so it may be anything, even a failing term. */
  lemma EvalIfTrue(cond: Expr, thenBranch: Expr, elseBranch: Expr, env: Values.Env, fuel: nat)
    requires Eval(cond, env, fuel) == Ok(Values.Bool(true))
    ensures Eval(If(cond, thenBranch, elseBranch), env, fuel) == Eval(thenBranch, env, fuel)
  {
  }

  /** A false condition gives exactly the else-branch's outcome; the then
      branch is never evaluated. */
  lemma EvalIfFalse(cond: Expr, thenBranch: Expr, elseBranch: Expr, env: Values.Env, fuel: nat)
    requires Eval(cond, env, fuel) == Ok(Values.Bool(false))
    ensures Eval(If(cond, thenBranch, elseBranch), env, fuel) == Eval(elseBranch, env, fuel)
  {
  }

  /** A failing condition fails the conditional; a non-boolean condition
      is a type error. */
  lemma EvalIfOther(cond: Expr, thenBranch: Expr, elseBranch: Expr, env: Values.Env, fuel: nat)
    ensures !Eval(cond, env, fuel).Ok? ==>
      Eval(If(cond, thenBranch, elseBranch), env, fuel) == Eval(cond, env, fuel).PropagateFailure()
    ensures Eval(cond, env, fuel).Ok? && !Eval(cond, env, fuel).value.Bool? ==>
      Eval(If(cond, thenBranch, elseBranch), env, fuel) == Err(TypeError(IfConditionMessage))
  {
  }

  /** A tuple succeeds exactly when every element does, giving the elements'
      values in order; otherwise it fails as its leftmost failing element. */
  lemma {:induction false} EvalTupleResult(items: seq<Expr>, env: Values.Env, fuel: nat, v: Values.Value)
    ensures Eval(Tuple(items), env, fuel) == Ok(v) <==> v.Tuple? && AllItemsOk(items, env, fuel, v.items)
    ensures !Eval(Tuple(items), env, fuel).Ok? ==>
      exists k: nat :: FirstFailingItem(items, env, fuel, k) &&
        Eval(Tuple(items), env, fuel) == Eval(items[k], env, fuel).PropagateFailure()
  {
    if v.Tuple? {
      EvalItemsOk(items, env, fuel, v.items);
    }
    if !Eval(Tuple(items), env, fuel).Ok? {
      if !EvalItems(items, env, fuel).Ok? {
        var k := LeftmostFailingItem(items, env, fuel);
        EvalItemsFail(items, env, fuel, k);
      }
    }
  }

  /** The leftmost failing element of a tuple whose evaluation failed. */
  lemma {:induction false} LeftmostFailingItem(items: seq<Expr>, env: Values.Env, fuel: nat) returns (k: nat)
    requires !EvalItems(items, env, fuel).Ok?
    ensures FirstFailingItem(items, env, fuel, k)
    decreases items
  {
    if !Eval(items[0], env, fuel).Ok? {
      k := 0;
    } else {
      var j := LeftmostFailingItem(items[1..], env, fuel);
      k := j + 1;
      forall i | 0 <= i < k ensures Eval(items[i], env, fuel).Ok? {
        if i > 0 {
          assert items[i] == items[1..][i - 1];
        }
      }
      assert items[k] == items[1..][j];
    }
  }

  /** A record succeeds exactly when every field value does, giving the
      field names in order with their values; otherwise it fails as its
      leftmost failing field. */
  lemma {:induction false} EvalRecordResult(fields: seq<(string, Expr)>, env: Values.Env, fuel: nat, v: Values.Value)
    ensures Eval(Record(fields), env, fuel) == Ok(v) <==> v.Record? && AllFieldsOk(fields, env, fuel, v.fields)
    ensures !Eval(Record(fields), env, fuel).Ok? ==>
      exists k: nat :: FirstFailingField(fields, env, fuel, k) &&
        Eval(Record(fields), env, fuel) == Eval(fields[k].1, env, fuel).PropagateFailure()
  {
    if v.Record? {
      EvalFieldsOk(fields, env, fuel, v.fields);
    }
    if !Eval(Record(fields), env, fuel).Ok? {
      if !EvalFields(fields, env, fuel).Ok? {
        var k := LeftmostFailingField(fields, env, fuel);
        EvalFieldsFail(fields, env, fuel, k);
      }
    }
  }

  /** The leftmost failing field of a record whose evaluation failed. */
  lemma {:induction false} LeftmostFailingField(fields: seq<(string, Expr)>, env: Values.Env, fuel: nat) returns (k: nat)
    requires !EvalFields(fields, env, fuel).Ok?
    ensures FirstFailingField(fields, env, fuel, k)
    decreases fields
  {
    if !Eval(fields[0].1, env, fuel).Ok? {
      k := 0;
    } else {
      var j := LeftmostFailingField(fields[1..], env, fuel);
      k := j + 1;
      forall i | 0 <= i < k ensures Eval(fields[i].1, env, fuel).Ok? {
        if i > 0 {
          assert fields[i] == fields[1..][i - 1];
        }
      }
      assert fields[k] == fields[1..][j];
    }
  }
}
