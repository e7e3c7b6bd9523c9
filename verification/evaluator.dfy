/** The evaluator of the Axis core language (axis_core_rs/src/eval.rs).

    The language is untyped, so evaluation need not terminate (a term that
    applies itself to itself runs forever). `Eval` therefore takes a fuel
    bound: each closure call spends one unit, and a call made with none left
    yields `OutOfFuel`. Every other outcome is exactly the original's, and
    `EvalFuelMonotone` shows that once some fuel is enough, any larger amount
    gives the same outcome. */
module Evaluator {
  import opened Syntax
  import Values
  import opened Environment

  /** The three ways evaluation can fail. */
  datatype EvalError =
    | UnboundVar(name: string)
    | TypeError(message: string)
    | NotAFunction

  /** The payload of the one type error the evaluator raises. */
  const IfConditionMessage: string := "if condition must be a boolean"

  /** The result of an evaluation: a success, one of the language's errors,
      or exhaustion of the fuel bound. Failures propagate through `:-`
      like the original's `?` operator. */
  datatype Outcome<+T> = Ok(value: T) | Err(error: EvalError) | OutOfFuel
  {
    predicate IsFailure() {
      !Ok?
    }

    function PropagateFailure<U>(): Outcome<U>
      requires IsFailure()
    {
      if Err? then Err(error) else OutOfFuel
    }

    function Extract(): T
      requires Ok?
    {
      value
    }
  }

  /** Evaluates `e` under `env`, spending one unit of `fuel` per closure call.
      Subterms are evaluated left to right and the first failure wins. */
  function Eval(e: Expr, env: Values.Env, fuel: nat): (r: Outcome<Values.Value>)
    ensures e.Tuple? && r.Ok? ==> r.value.Tuple? && |r.value.items| == |e.items|
    ensures e.Record? && r.Ok? ==>
      r.value.Record? && |r.value.fields| == |e.fields| &&
      forall k :: 0 <= k < |e.fields| ==> r.value.fields[k].0 == e.fields[k].0
    ensures e.Int? || e.Bool? || e.Var? || e.Lambda? ==> r != OutOfFuel
    decreases fuel, e
  {
    match e
    case Int(i) => Ok(Values.Int(i))
    case Bool(b) => Ok(Values.Bool(b))
    case Var(name) =>
      (match Lookup(env, name)
       case Some(v) => Ok(v)
       case None => Err(UnboundVar(name)))
    case Lambda(param, body) => Ok(Values.Closure(param, body, env))
    case Apply(func, arg) =>
      var f :- Eval(func, env, fuel);
      var a :- Eval(arg, env, fuel);
      (match f
       case Closure(param, body, closureEnv) =>
         if fuel == 0 then OutOfFuel
         else Eval(body, Extend(closureEnv, param, a), fuel - 1)
       case _ => Err(NotAFunction))
    case Let(name, value, body) =>
      var v :- Eval(value, env, fuel);
      Eval(body, Extend(env, name, v), fuel)
    case If(cond, thenBranch, elseBranch) =>
      var c :- Eval(cond, env, fuel);
      (match c
       case Bool(true) => Eval(thenBranch, env, fuel)
       case Bool(false) => Eval(elseBranch, env, fuel)
       case _ => Err(TypeError(IfConditionMessage)))
    case Tuple(items) =>
      var vs :- EvalItems(items, env, fuel);
      Ok(Values.Tuple(vs))
    case Record(fields) =>
      var fs :- EvalFields(fields, env, fuel);
      Ok(Values.Record(fs))
  }

  /** The elements of a tuple, evaluated left to right, stopping at the
      first failure. */
  function EvalItems(items: seq<Expr>, env: Values.Env, fuel: nat): (r: Outcome<seq<Values.Value>>)
    ensures r.Ok? ==> |r.value| == |items|
    decreases fuel, items
  {
    if items == [] then Ok([])
    else
      var v :- Eval(items[0], env, fuel);
      var vs :- EvalItems(items[1..], env, fuel);
      Ok([v] + vs)
  }

  /** The fields of a record, evaluated left to right with their names kept,
      stopping at the first failure. */
  function EvalFields(fields: seq<(string, Expr)>, env: Values.Env, fuel: nat): (r: Outcome<seq<(string, Values.Value)>>)
    ensures r.Ok? ==> |r.value| == |fields| && forall k :: 0 <= k < |fields| ==> r.value[k].0 == fields[k].0
    decreases fuel, fields
  {
    if fields == [] then Ok([])
    else
      assert fields[0].1 < fields[0];
      var v :- Eval(fields[0].1, env, fuel);
      var fs :- EvalFields(fields[1..], env, fuel);
      Ok([(fields[0].0, v)] + fs)
  }

  /** Every element succeeded, giving exactly `vs`, in order. */
  ghost predicate AllItemsOk(items: seq<Expr>, env: Values.Env, fuel: nat, vs: seq<Values.Value>)
  {
    |vs| == |items| && forall k :: 0 <= k < |items| ==> Eval(items[k], env, fuel) == Ok(vs[k])
  }

  /** Element `k` is the leftmost one that fails. */
  ghost predicate FirstFailingItem(items: seq<Expr>, env: Values.Env, fuel: nat, k: nat)
  {
    && k < |items|
    && (forall j :: 0 <= j < k ==> Eval(items[j], env, fuel).Ok?)
    && !Eval(items[k], env, fuel).Ok?
  }

  /** Every field succeeded, with the names copied and the values `fs`, in order. */
  ghost predicate AllFieldsOk(fields: seq<(string, Expr)>, env: Values.Env, fuel: nat, fs: seq<(string, Values.Value)>)
  {
    && |fs| == |fields|
    && forall k :: 0 <= k < |fields| ==>
         fs[k].0 == fields[k].0 && Eval(fields[k].1, env, fuel) == Ok(fs[k].1)
  }

  /** Field `k` is the leftmost one whose value fails. */
  ghost predicate FirstFailingField(fields: seq<(string, Expr)>, env: Values.Env, fuel: nat, k: nat)
  {
    && k < |fields|
    && (forall j :: 0 <= j < k ==> Eval(fields[j].1, env, fuel).Ok?)
    && !Eval(fields[k].1, env, fuel).Ok?
  }

  lemma {:induction false} EvalItemsOk(items: seq<Expr>, env: Values.Env, fuel: nat, vs: seq<Values.Value>)
    ensures EvalItems(items, env, fuel) == Ok(vs) <==> AllItemsOk(items, env, fuel, vs)
    decreases items
  {
    if items != [] {
      EvalItemsOk(items[1..], env, fuel, if vs == [] then [] else vs[1..]);
      if AllItemsOk(items, env, fuel, vs) {
        assert AllItemsOk(items[1..], env, fuel, vs[1..]) by {
          forall k | 0 <= k < |items| - 1
            ensures Eval(items[1..][k], env, fuel) == Ok(vs[1..][k])
          {
            assert items[1..][k] == items[k + 1];
          }
        }
        assert vs == [vs[0]] + vs[1..];
      }
    }
  }

  lemma {:induction false} EvalItemsFail(items: seq<Expr>, env: Values.Env, fuel: nat, k: nat)
    requires FirstFailingItem(items, env, fuel, k)
    ensures EvalItems(items, env, fuel) == Eval(items[k], env, fuel).PropagateFailure()
    decreases items
  {
    if k > 0 {
      assert FirstFailingItem(items[1..], env, fuel, k - 1) by {
        forall j | 0 <= j < k - 1 ensures Eval(items[1..][j], env, fuel).Ok? {
          assert items[1..][j] == items[j + 1];
        }
      }
      EvalItemsFail(items[1..], env, fuel, k - 1);
    }
  }

  lemma {:induction false} EvalFieldsOk(fields: seq<(string, Expr)>, env: Values.Env, fuel: nat, fs: seq<(string, Values.Value)>)
    ensures EvalFields(fields, env, fuel) == Ok(fs) <==> AllFieldsOk(fields, env, fuel, fs)
    decreases fields
  {
    if fields != [] {
      EvalFieldsOk(fields[1..], env, fuel, if fs == [] then [] else fs[1..]);
      if AllFieldsOk(fields, env, fuel, fs) {
        assert AllFieldsOk(fields[1..], env, fuel, fs[1..]) by {
          forall k | 0 <= k < |fields| - 1
            ensures fs[1..][k].0 == fields[1..][k].0 && Eval(fields[1..][k].1, env, fuel) == Ok(fs[1..][k].1)
          {
            assert fields[1..][k] == fields[k + 1];
          }
        }
        assert fs[0] == (fields[0].0, fs[0].1);
        assert fs == [(fields[0].0, fs[0].1)] + fs[1..];
      }
    }
  }

  lemma {:induction false} EvalFieldsFail(fields: seq<(string, Expr)>, env: Values.Env, fuel: nat, k: nat)
    requires FirstFailingField(fields, env, fuel, k)
    ensures EvalFields(fields, env, fuel) == Eval(fields[k].1, env, fuel).PropagateFailure()
    decreases fields
  {
    if k > 0 {
      assert FirstFailingField(fields[1..], env, fuel, k - 1) by {
        forall j | 0 <= j < k - 1 ensures Eval(fields[1..][j].1, env, fuel).Ok? {
          assert fields[1..][j] == fields[j + 1];
        }
      }
      EvalFieldsFail(fields[1..], env, fuel, k - 1);
    }
  }

  /** The tuple arm as the original runs it: a loop that pushes each
      element's value and returns at the first failure. */
  method EvalTuple(items: seq<Expr>, env: Values.Env, fuel: nat) returns (r: Outcome<Values.Value>)
    ensures r == Eval(Tuple(items), env, fuel)
  {
    var vals: seq<Values.Value> := [];
    var i := 0;
    while i < |items|
      invariant 0 <= i <= |items|
      invariant |vals| == i
      invariant forall k :: 0 <= k < i ==> Eval(items[k], env, fuel) == Ok(vals[k])
    {
      var o := Eval(items[i], env, fuel);
      if !o.Ok? {
        EvalItemsFail(items, env, fuel, i);
        return o.PropagateFailure();
      }
      vals := vals + [o.value];
      i := i + 1;
    }
    EvalItemsOk(items, env, fuel, vals);
    r := Ok(Values.Tuple(vals));
  }

  /** The record arm as the original runs it: a loop that pushes each
      (name, value) pair and returns at the first failure. */
  method EvalRecord(fields: seq<(string, Expr)>, env: Values.Env, fuel: nat) returns (r: Outcome<Values.Value>)
    ensures r == Eval(Record(fields), env, fuel)
  {
    var vals: seq<(string, Values.Value)> := [];
    var i := 0;
    while i < |fields|
      invariant 0 <= i <= |fields|
      invariant |vals| == i
      invariant forall k :: 0 <= k < i ==>
        vals[k].0 == fields[k].0 && Eval(fields[k].1, env, fuel) == Ok(vals[k].1)
    {
      var (name, valueExpr) := fields[i];
      var o := Eval(valueExpr, env, fuel);
      if !o.Ok? {
        EvalFieldsFail(fields, env, fuel, i);
        return o.PropagateFailure();
      }
      vals := vals + [(name, o.value)];
      i := i + 1;
    }
    EvalFieldsOk(fields, env, fuel, vals);
    r := Ok(Values.Record(vals));
  }
}
