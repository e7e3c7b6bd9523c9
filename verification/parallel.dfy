/** The data-parallel driver (axis_core_rs/src/parallel.rs). Workers and
    scheduling are not modelled: what the driver guarantees is that result
    `i` is the evaluation of expression `i` under the one shared
    environment, whatever the order in which workers finish. */
module Parallel {
  import opened Syntax
  import Values
  import opened Evaluator

  /** One independent evaluation per input, gathered in input order. */
  function EvalMany(exprs: seq<Expr>, env: Values.Env, fuel: nat): (rs: seq<Outcome<Values.Value>>)
    ensures |rs| == |exprs|
  {
    seq(|exprs|, i requires 0 <= i < |exprs| => Eval(exprs[i], env, fuel))
  }

  /** The sequential reference: evaluate one expression at a time, left to
      right, and collect each outcome. */
  function EvalSequentially(exprs: seq<Expr>, env: Values.Env, fuel: nat): seq<Outcome<Values.Value>>
  {
    if exprs == [] then [] else [Eval(exprs[0], env, fuel)] + EvalSequentially(exprs[1..], env, fuel)
  }

  /** Parallel and sequential evaluation give the same ordered results;
      an error in one position leaves every other position untouched. */
  lemma {:induction false} ParallelMatchesSequential(exprs: seq<Expr>, env: Values.Env, fuel: nat)
    ensures EvalMany(exprs, env, fuel) == EvalSequentially(exprs, env, fuel)
    decreases exprs
  {
    if exprs != [] {
      ParallelMatchesSequential(exprs[1..], env, fuel);
      assert EvalMany(exprs, env, fuel) == [Eval(exprs[0], env, fuel)] + EvalMany(exprs[1..], env, fuel);
    }
  }

  /** Splitting the input into two chunks and concatenating the chunks'
      results changes nothing, however the work is divided. */
  lemma EvalManySplits(a: seq<Expr>, b: seq<Expr>, env: Values.Env, fuel: nat)
    ensures EvalMany(a + b, env, fuel) == EvalMany(a, env, fuel) + EvalMany(b, env, fuel)
  {
  }
}
