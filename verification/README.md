# Axis core evaluator in Dafny

This project models the evaluator of the Axis core language, a pure, call-by-value and lexically scoped lambda calculus with `let`, `if`, tuples and records. The model has these parts:

- `Syntax` (`syntax.dfy`) is the expression tree, with nine shapes. Integer literals are signed 64-bit, and record fields are an ordered list of (name, expression) pairs whose names may repeat.
- `Values` (`values.dfy`) holds the five value shapes. A closure carries a parameter, a body expression and the environment it captured. The environment type is declared here because a closure holds an environment and an environment holds values, so the two types are mutually recursive.
- `Environment` (`environment.dfy`) is the persistent environment, with `Empty`, `Extend` and `Lookup` over an immutable map from names to values. Two environments are equal exactly when their bindings are equal, whatever order they were built in.
- `Evaluator` (`evaluator.dfy`) holds the error taxonomy (`UnboundVar`, `TypeError`, `NotAFunction`) and `Eval`, with one arm per expression shape. Sub-terms are evaluated left to right and the first failure wins. It also has the tuple and record arms written as the loops the original runs (`EvalTuple`, `EvalRecord`), each proved equal to `Eval`.
- `Semantics` (`semantics.dfy`) states, arm by arm, what evaluation returns: which arm fires, which error wins and which environment the body runs in.
- `Parallel` (`parallel.dfy`) gives what the parallel driver means: an order-preserving map of `Eval` over a list of expressions that share one environment.
- `Scenarios` (`scenarios.dfy`) works through concrete evaluations: the source's fixture expression, the error cases, static scoping, and a term that never finishes.

The language is untyped, so evaluation need not terminate: `(fn x => x x) (fn x => x x)` recurses forever. For that reason `Eval` takes a fuel bound. Each closure call spends one unit, and a call made with no fuel left yields the extra outcome `OutOfFuel`. Every other arm recurses on a strictly smaller expression and spends nothing. The semantic lemmas hold for every fuel amount. `EvalFuelMonotone` shows that once some amount is enough, every larger amount gives the same value or error. So each property holds for every fuel amount large enough for evaluation to finish.

Some properties hold by construction and need no lemma:

- Expressions, values and environments are Dafny datatypes, so they are immutable and their equality is deep and structural. A closure's body and captured environment take part in that equality.
- `Extend` returns a new environment and cannot affect its argument.
- `Eval` is a function, so it is deterministic: the same expression, environment and fuel always give the same outcome.

The error names and the type-error text are those of axis_core_rs/src/eval.rs:8-17 and axis_core_rs/src/eval.rs:61.

## Model

| member | source | states |
|---|---|---|
| `Syntax.Children` | axis_core_rs/src/ast.rs:5-50 | every immediate sub-expression, including each tuple element and each record field value, is a strictly smaller tree, so recursion over expressions is well-founded |
| `Syntax.RecordFieldsAreOrdered` | axis_core_rs/src/ast.rs:48-49 | record field order matters for equality, duplicate field names are representable, and a tuple may be empty |
| `Environment.Empty` | axis_core_rs/src/env.rs:10-12 | looking up any name in the empty environment finds nothing |
| `Environment.Extend` | axis_core_rs/src/env.rs:14-18 | the new binding is found under its name, and every other name looks up exactly as in the parent environment |
| `Environment.EnvEquality` | axis_core_rs/src/env.rs:6-7 | two environments are equal if and only if every name looks up the same in both, so insertion history does not matter |
| `Environment.ExtendShadows` | axis_core_rs/src/env.rs:14-17 | rebinding a name equals binding it once to the second value, and the intermediate environment still maps it to the first value |
| `Environment.ExtendCommutes` | axis_core_rs/src/env.rs:16 | binding two distinct names in either order gives equal environments |
| `Environment.Lookup` | axis_core_rs/src/env.rs:20-22 | the binding of a name, or nothing; its behaviour is stated by `Empty` (nothing is bound), `Extend` (the new binding wins, every other name is unchanged) and `EnvEquality` (lookups determine the environment) |
| `Evaluator.Eval` | axis_core_rs/src/eval.rs:19-82 | on success a tuple gives a tuple of the same length and a record gives a record with the same field names in order; literals, variables and lambdas always finish; each arm's full behaviour is stated by the `Semantics` rows below |
| `Evaluator.EvalItems` | axis_core_rs/src/eval.rs:66-71 | on success there is one value per element; the full meaning is stated by `EvalItemsOk` and `EvalItemsFail` |
| `Evaluator.EvalFields` | axis_core_rs/src/eval.rs:74-79 | on success there is one field per input field, with the names copied in order; the full meaning is stated by `EvalFieldsOk` and `EvalFieldsFail` |
| `Evaluator.EvalItemsOk` | axis_core_rs/src/eval.rs:66-71 | the element list evaluates to `vs` if and only if `vs` has one value per element, in order, each the element's own evaluation |
| `Evaluator.EvalItemsFail` | axis_core_rs/src/eval.rs:68-69 | when element k is the leftmost failure, the element list fails with exactly element k's failure |
| `Evaluator.EvalFieldsOk` | axis_core_rs/src/eval.rs:74-79 | the field list evaluates to `fs` if and only if `fs` copies every field name in order, each paired with its value's evaluation |
| `Evaluator.EvalFieldsFail` | axis_core_rs/src/eval.rs:76-77 | when field k is the leftmost failure, the field list fails with exactly field k's failure |
| `Evaluator.EvalTuple` | axis_core_rs/src/eval.rs:66-72 | the push loop with early return gives exactly the tuple arm's outcome |
| `Evaluator.EvalRecord` | axis_core_rs/src/eval.rs:74-80 | the push loop over (name, value) pairs with early return gives exactly the record arm's outcome |
| `Semantics.EvalFuelMonotone` | axis_core_rs/src/eval.rs:19-82 | once evaluation finishes with some fuel, every larger fuel amount gives the same value or error |
| `Semantics.FinishedOutcomesAgree` | axis_core_rs/src/eval.rs:19-82 | any two fuel amounts that both let evaluation finish give the same outcome |
| `Semantics.EvalLiterals` | axis_core_rs/src/eval.rs:23-24 | integer and boolean literals evaluate to themselves in any environment |
| `Semantics.EvalVar` | axis_core_rs/src/eval.rs:26-29 | a variable gives `v` if and only if it is bound to `v`; it fails with `UnboundVar` carrying its own name if and only if it is unbound; it always finishes |
| `Semantics.EvalLambda` | axis_core_rs/src/eval.rs:31-35 | a lambda never fails: it gives a closure that captures the caller's environment exactly, whatever its body |
| `Semantics.EvalApplyErrorOrder` | axis_core_rs/src/eval.rs:37-46 | a failure of the function wins; otherwise a failure of the argument; `NotAFunction` when both succeed and the function is not a closure |
| `Semantics.EvalApplyClosure` | axis_core_rs/src/eval.rs:40-44 | calling a closure evaluates its body in the closure's own environment extended with the parameter bound to the argument |
| `Semantics.ApplyIgnoresCallerEnv` | axis_core_rs/src/eval.rs:41-43 | two caller environments in which the function and the argument evaluate alike give the same call outcome |
| `Semantics.EvalLet` | axis_core_rs/src/eval.rs:49-53 | the value's failure is the `let`'s failure; otherwise the body runs in the outer environment extended with the name bound to the value |
| `Semantics.LetIsNotRecursive` | axis_core_rs/src/eval.rs:50-51 | `let x = x in body` in the empty environment fails with `UnboundVar("x")` |
| `Semantics.EvalIfTrue` | axis_core_rs/src/eval.rs:55-58 | a true condition gives exactly the then-branch's outcome, for every else branch, so the else branch is never evaluated |
| `Semantics.EvalIfFalse` | axis_core_rs/src/eval.rs:55-59 | a false condition gives exactly the else-branch's outcome, for every then branch |
| `Semantics.EvalIfOther` | axis_core_rs/src/eval.rs:55-63 | a failing condition fails the conditional; a non-boolean condition gives `TypeError("if condition must be a boolean")` |
| `Semantics.EvalTupleResult` | axis_core_rs/src/eval.rs:66-72 | a tuple gives a tuple value if and only if every element succeeds, with one value per element in order; otherwise there is a leftmost failing element and the tuple fails with its failure |
| `Semantics.EvalRecordResult` | axis_core_rs/src/eval.rs:74-80 | a record gives a record value if and only if every field succeeds, with the names copied in order; otherwise it fails with its leftmost failing field's failure |
| `Parallel.EvalMany` | axis_core_rs/src/parallel.rs:9-14 | one outcome per input expression |
| `Parallel.ParallelMatchesSequential` | axis_core_rs/src/parallel.rs:9-14 | the parallel results equal those of evaluating the expressions one at a time, left to right, in input order |
| `Parallel.EvalManySplits` | axis_core_rs/src/parallel.rs:10-13 | evaluating two chunks separately and concatenating the results equals evaluating the whole input |
| `Scenarios.SimpleLambdaExampleGives41` | axis_core_rs/src/example.rs:12-30 | `let inc = fn x => x in inc 41` gives `Int(41)` with one unit of fuel or more |
| `Scenarios.NestedLetsGiveTuple` | axis_core_rs/src/main.rs:74-102 | the demo's nested lets, with a three-element tuple for `x`, give the tuple `(2, 3, 999)` |
| `Scenarios.ErrorScenarios` | axis_core_rs/src/eval.rs:26-79 | an unbound variable, a non-boolean condition, a call of a non-function, an argument error that wins over `NotAFunction`, and a failing tuple element each give the expected error |
| `Scenarios.ClosuresAreStaticallyScoped` | axis_core_rs/src/eval.rs:31-43 | a closure sees the binding in force at its definition, not a later rebinding at the call site |
| `Scenarios.SelfApplicationNeverFinishes` | axis_core_rs/src/eval.rs:37-44 | `(fn x => x x) (fn x => x x)` runs out of every fuel amount, so evaluation is not total |

## Left out

- Threads and scheduling in `eval_many_parallel` (axis_core_rs/src/parallel.rs) are not modelled. Only the order-preserving meaning of the driver is modelled, as `Parallel.EvalMany`.
- Parallel.EvalMany: its own contract states only the length; its content is stated by `ParallelMatchesSequential` and `EvalManySplits`.
- `OutOfFuel` is an outcome of the model only. It stands for evaluation that has not finished, and the original has no such result.
- Shared ownership of sub-expressions and environments (reference counting, structural sharing inside the hash map) affects memory use, not behaviour. It is not modelled.
- Serialization (the `serde_arc` helpers and the serialize/deserialize derives) is left out. It wraps a library that is not part of this model.
- The display strings of the error enum are left out. The only text the evaluator itself builds, the type-error payload, is modelled.
- The demo harness in axis_core_rs/src/main.rs is left out: timing, printing and the 10,000-copy benchmark input. `Scenarios.NestedLetsGiveTuple` uses a three-element tuple in place of its 50,000-element one.
- axis_core_rs/src/lib.rs only declares modules and re-exports names, so it has no counterpart.
- Stack depth is not modelled: the original's recursion may exhaust the native stack on very deep inputs.
