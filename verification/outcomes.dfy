/** Option and Result, the two failure-compatible wrappers the model uses
    for Ruby's `nil` results and raised exceptions. */
module Outcomes {

  /** A value or its absence (Ruby's `nil` as a method result). */
  datatype Option<+T> = None | Some(value: T)

  /** A value, or the exception a Ruby method raised instead of returning. */
  datatype Result<+T, +E> = Ok(value: T) | Err(error: E) {

    predicate IsFailure() {
      Err?
    }

    function PropagateFailure<U>(): Result<U, E>
      requires Err?
    {
      Err(error)
    }

    function Extract(): T
      requires Ok?
    {
      value
    }
  }

  /** `Array#map` with a block that may raise: every result in order, or
      the exception of the first element the block fails on. */
  function MapResult<A, B, E>(xs: seq<A>, f: A -> Result<B, E>): (r: Result<seq<B>, E>)
    ensures r.Ok? <==> forall i | 0 <= i < |xs| :: f(xs[i]).Ok?
    ensures r.Ok? ==> |r.value| == |xs|
    ensures r.Ok? ==> forall i | 0 <= i < |xs| :: f(xs[i]) == Ok(r.value[i])
    ensures r.Err? ==> exists i | 0 <= i < |xs| ::
      && f(xs[i]) == Err(r.error)
      && forall j | 0 <= j < i :: f(xs[j]).Ok?
  {
    if xs == [] then Ok([])
    else
      match f(xs[0])
      case Err(e) => Err(e)
      case Ok(first) =>
        match MapResult(xs[1..], f)
        case Err(e) => Err(e)
        case Ok(rest) => Ok([first] + rest)
  }
}
