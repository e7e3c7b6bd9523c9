/** Abstract syntax of the Axis core language (axis_core_rs/src/ast.rs).
    Sub-expressions are plain datatype fields: the shared ownership of the
    original (reference-counted handles) changes sharing, not meaning, and
    datatype equality is deep and structural by construction. */
module Syntax {

  const I64_MIN: int := -0x8000_0000_0000_0000
  const I64_MAX: int := 0x7FFF_FFFF_FFFF_FFFF

  /** Signed 64-bit integers, the payload of an integer literal. */
  type I64 = x: int | I64_MIN <= x <= I64_MAX

  /** An expression: exactly nine shapes. Tuples and records keep their
      elements in the order given; record field names may repeat. */
  datatype Expr =
    | Int(i: I64)
    | Bool(b: bool)
    | Var(name: string)
    | Lambda(param: string, body: Expr)
    | Apply(func: Expr, arg: Expr)
    | Let(name: string, value: Expr, body: Expr)
    | If(cond: Expr, thenBranch: Expr, elseBranch: Expr)
    | Tuple(items: seq<Expr>)
    | Record(fields: seq<(string, Expr)>)

  // Size, Children and RecordFieldsAreOrdered record the shape promises of
  // the expression tree; no other proof depends on them (evaluation
  // terminates by Dafny's built-in order on datatypes).

  /** Number of nodes in the tree. */
  function Size(e: Expr): (n: nat)
    ensures n >= 1
    decreases e
  {
    match e
    case Int(_) => 1
    case Bool(_) => 1
    case Var(_) => 1
    case Lambda(_, body) => 1 + Size(body)
    case Apply(func, arg) => 1 + Size(func) + Size(arg)
    case Let(_, value, body) => 1 + Size(value) + Size(body)
    case If(c, t, f) => 1 + Size(c) + Size(t) + Size(f)
    case Tuple(items) => 1 + ItemsSize(items)
    case Record(fields) => 1 + FieldsSize(fields)
  }

  function ItemsSize(items: seq<Expr>): (n: nat)
    ensures n >= |items|
    decreases items
  {
    if items == [] then 0 else Size(items[0]) + ItemsSize(items[1..])
  }

  function FieldsSize(fields: seq<(string, Expr)>): (n: nat)
    ensures n >= |fields|
    decreases fields
  {
    if fields == [] then 0
    else
      assert fields[0].1 < fields[0];
      Size(fields[0].1) + FieldsSize(fields[1..])
  }

  lemma {:induction false} ItemSmaller(items: seq<Expr>, k: nat)
    requires k < |items|
    ensures Size(items[k]) <= ItemsSize(items)
    decreases items
  {
    if k > 0 {
      ItemSmaller(items[1..], k - 1);
    }
  }

  lemma {:induction false} FieldSmaller(fields: seq<(string, Expr)>, k: nat)
    requires k < |fields|
    ensures Size(fields[k].1) <= FieldsSize(fields)
    decreases fields
  {
    if k > 0 {
      FieldSmaller(fields[1..], k - 1);
    }
  }

  /** The immediate sub-expressions of `e`, left to right. Each is a strictly
      smaller tree, so structural recursion over expressions is well-founded. */
  function Children(e: Expr): (cs: seq<Expr>)
    ensures forall c :: c in cs ==> Size(c) < Size(e)
  {
    match e
    case Int(_) => []
    case Bool(_) => []
    case Var(_) => []
    case Lambda(_, body) => [body]
    case Apply(func, arg) => [func, arg]
    case Let(_, value, body) => [value, body]
    case If(c, t, f) => [c, t, f]
    case Tuple(items) =>
      assert forall k :: 0 <= k < |items| ==> Size(items[k]) < Size(e) by {
        forall k | 0 <= k < |items| { ItemSmaller(items, k); }
      }
      items
    case Record(fields) =>
      var values := seq(|fields|, k requires 0 <= k < |fields| => fields[k].1);
      assert forall k :: 0 <= k < |fields| ==> Size(values[k]) < Size(e) by {
        forall k | 0 <= k < |fields| { FieldSmaller(fields, k); }
      }
      values
  }

  /** Tuples may be empty; record fields are an ordered list in which names
      may repeat, so reordering fields or removing a duplicate gives a
      different expression. */
  lemma RecordFieldsAreOrdered(x: Expr, y: Expr)
    requires x != y
    ensures Record([("a", x), ("b", y)]) != Record([("b", y), ("a", x)])
    ensures Record([("a", x), ("a", y)]) != Record([("a", y)])
    ensures |Tuple([]).items| == 0
  {
  }
}
