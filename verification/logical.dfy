/**
 * The primitive Boolean nodes: NOT (tellur_core/src/tellur_std_node/logical/not.rs)
 * and AND (core/src/tellur_std_node/logical/and.rs). Each has a fixed
 * identifier and signature; evaluation reads Boolean arguments and produces
 * exactly one Boolean result. The source panics on a wrong argument count or
 * a non-Boolean argument; here those are `ArityMismatch` and `TypeMismatch`.
 */
module Logical {
  import opened Wrappers
  import opened SortedMap
  import opened Types

  const NotIdent: string := "not"
  const AndIdent: string := "and"

  /** `value: Immutable Bool`. */
  function NotParameters(): Assoc<string, (RefType, TellurType)> {
    [("value", (Immutable, Bool))]
  }

  /** `left` and `right`, both `Immutable Bool`, in key order. */
  function AndParameters(): Assoc<string, (RefType, TellurType)> {
    [("left", (Immutable, Bool)), ("right", (Immutable, Bool))]
  }

  /** Both nodes return a single `result: Bool`. */
  function BoolResult(): Assoc<string, TellurType> {
    [("result", Bool)]
  }

  /** Arguments conform, position by position, to a declared parameter list. */
  predicate ArgsConform(args: seq<TypedValue>, params: Assoc<string, (RefType, TellurType)>) {
    |args| == |params| && forall i :: 0 <= i < |args| ==> IsInstanceOf(args[i], params[i].1.1)
  }

  /** Results conform, position by position, to a declared return list. */
  predicate ResultsConform(results: seq<TypedValue>, decl: Assoc<string, TellurType>) {
    |results| == |decl| && forall i :: 0 <= i < |results| ==> IsInstanceOf(results[i], decl[i].1)
  }

  function NotEvaluate(args: seq<TypedValue>): (r: Result<seq<TypedValue>>)
    ensures r.Ok? <==> ArgsConform(args, NotParameters())
    ensures r.Ok? ==> ResultsConform(r.value, BoolResult()) && r.value[0].b == !args[0].b
    ensures |args| != 1 ==> r == Err(ArityMismatch)
    ensures |args| == 1 && !args[0].BoolValue? ==> r == Err(TypeMismatch)
  {
    if |args| != 1 then Err(ArityMismatch)
    else if !args[0].BoolValue? then Err(TypeMismatch)
    else Ok([BoolValue(!args[0].b)])
  }

  function AndEvaluate(args: seq<TypedValue>): (r: Result<seq<TypedValue>>)
    ensures r.Ok? <==> ArgsConform(args, AndParameters())
    ensures r.Ok? ==> ResultsConform(r.value, BoolResult()) && r.value[0].b == (args[0].b && args[1].b)
    ensures |args| != 2 ==> r == Err(ArityMismatch)
    ensures |args| == 2 && !(args[0].BoolValue? && args[1].BoolValue?) ==> r == Err(TypeMismatch)
  {
    if |args| != 2 then Err(ArityMismatch)
    else if !args[0].BoolValue? then Err(TypeMismatch)
    else if !args[1].BoolValue? then Err(TypeMismatch)
    else Ok([BoolValue(args[0].b && args[1].b)])
  }

  /**
   * AND does not depend on the order of its arguments: swapping them gives
   * the same result, and the same error when the arguments do not conform.
   */
  lemma AndCommutes(a: TypedValue, b: TypedValue)
    ensures AndEvaluate([a, b]) == AndEvaluate([b, a])
  {
  }
}
