/** Concrete evaluations: the fixture of axis_core_rs/src/example.rs, the
    expression built by axis_core_rs/src/main.rs (at a smaller tuple size),
    the error cases, static scoping, and a term that never finishes. */
module Scenarios {
  import opened Syntax
  import Values
  import opened Environment
  import opened Evaluator
  import opened Semantics

  /** `let inc = fn x => x in inc 41`. */
  function SimpleLambdaExample(): Expr
  {
    Let("inc", Lambda("x", Var("x")), Apply(Var("inc"), Int(41)))
  }

  lemma SimpleLambdaExampleGives41(fuel: nat)
    requires fuel >= 1
    ensures Eval(SimpleLambdaExample(), Empty(), fuel) == Ok(Values.Int(41))
  {
    var c := Values.Closure("x", Var("x"), Empty());
    var env := Extend(Empty(), "inc", c);
    assert Eval(Var("inc"), env, fuel) == Ok(c);
    assert Eval(Var("x"), Extend(Empty(), "x", Values.Int(41)), fuel - 1) == Ok(Values.Int(41));
    assert Eval(Apply(Var("inc"), Int(41)), env, fuel) == Ok(Values.Int(41));
  }

  /** `let x = (0, 1, 2) in let y = 2 in let z = 3 in (y, z, 999)`. */
  lemma NestedLetsGiveTuple(fuel: nat)
    ensures Eval(Let("x", Tuple([Int(0), Int(1), Int(2)]),
                   Let("y", Int(2), Let("z", Int(3), Tuple([Var("y"), Var("z"), Int(999)])))),
                 Empty(), fuel)
         == Ok(Values.Tuple([Values.Int(2), Values.Int(3), Values.Int(999)]))
  {
    var t := Tuple([Int(0), Int(1), Int(2)]);
    var x := Values.Tuple([Values.Int(0), Values.Int(1), Values.Int(2)]);
    var tail := Tuple([Var("y"), Var("z"), Int(999)]);
    var lz := Let("z", Int(3), tail);
    var ly := Let("y", Int(2), lz);
    EvalTupleResult([Int(0), Int(1), Int(2)], Empty(), fuel, x);
    var e1 := Extend(Empty(), "x", x);
    EvalLet("x", t, ly, Empty(), fuel);
    var e2 := Extend(e1, "y", Values.Int(2));
    EvalLet("y", Int(2), lz, e1, fuel);
    var e3 := Extend(e2, "z", Values.Int(3));
    EvalLet("z", Int(3), tail, e2, fuel);
    assert Eval(Var("y"), e3, fuel) == Ok(Values.Int(2));
    assert Eval(Var("z"), e3, fuel) == Ok(Values.Int(3));
    EvalTupleResult([Var("y"), Var("z"), Int(999)], e3, fuel, Values.Tuple([Values.Int(2), Values.Int(3), Values.Int(999)]));
  }

  lemma ErrorScenarios(fuel: nat)
    ensures Eval(Var("x"), Empty(), fuel) == Err(UnboundVar("x"))
    ensures Eval(If(Int(1), Int(2), Int(3)), Empty(), fuel) == Err(TypeError(IfConditionMessage))
    ensures Eval(Apply(Int(5), Int(1)), Empty(), fuel) == Err(NotAFunction)
    ensures Eval(Apply(Int(5), Var("missing")), Empty(), fuel) == Err(UnboundVar("missing"))
    ensures Eval(Tuple([Int(1), Var("missing"), Int(2)]), Empty(), fuel) == Err(UnboundVar("missing"))
  {
    var items := [Int(1), Var("missing"), Int(2)];
    assert FirstFailingItem(items, Empty(), fuel, 1);
    EvalItemsFail(items, Empty(), fuel, 1);
  }

  /** A closure sees the binding of `y` at its definition, not the later
      rebinding in force where it is called. */
  lemma {:induction false} ClosuresAreStaticallyScoped(fuel: nat)
    requires fuel >= 1
    ensures Eval(Let("y", Int(1),
                   Let("f", Lambda("x", Var("y")),
                     Let("y", Bool(true), Apply(Var("f"), Int(0))))),
                 Empty(), fuel)
         == Ok(Values.Int(1))
  {
    var call := Apply(Var("f"), Int(0));
    var l3 := Let("y", Bool(true), call);
    var l2 := Let("f", Lambda("x", Var("y")), l3);
    var e1 := Extend(Empty(), "y", Values.Int(1));
    EvalLet("y", Int(1), l2, Empty(), fuel);
    var c := Values.Closure("x", Var("y"), e1);
    var e2 := Extend(e1, "f", c);
    EvalLet("f", Lambda("x", Var("y")), l3, e1, fuel);
    var e3 := Extend(e2, "y", Values.Bool(true));
    EvalLet("y", Bool(true), call, e2, fuel);
    assert Eval(Var("f"), e3, fuel) == Ok(c);
    EvalApplyClosure(Var("f"), Int(0), e3, fuel, "x", Var("y"), e1, Values.Int(0));
    assert Eval(Var("y"), Extend(e1, "x", Values.Int(0)), fuel - 1) == Ok(Values.Int(1));
  }

  /** `fn x => x x`. */
  function SelfApply(): Expr
  {
    Lambda("x", Apply(Var("x"), Var("x")))
  }

  /** `(fn x => x x) (fn x => x x)`: the untyped language admits a term whose
      evaluation never finishes, so no fuel bound is ever enough. */
  lemma {:induction false} SelfApplicationNeverFinishes(fuel: nat)
    ensures Eval(Apply(SelfApply(), SelfApply()), Empty(), fuel) == OutOfFuel
  {
    if fuel > 0 {
      LoopBodyNeverFinishes(fuel - 1);
    }
  }

  lemma {:induction false} LoopBodyNeverFinishes(fuel: nat)
    ensures Eval(Apply(Var("x"), Var("x")),
                 Extend(Empty(), "x", Values.Closure("x", Apply(Var("x"), Var("x")), Empty())),
                 fuel) == OutOfFuel
    decreases fuel
  {
    if fuel > 0 {
      LoopBodyNeverFinishes(fuel - 1);
    }
  }
}
