/** Bytes, options, failure-compatible results and small facts about collections, shared by every model of the agent daemon. */
module Wrappers {

  type byte = x: int | 0 <= x < 256

  const I64_MAX := 0x7FFF_FFFF_FFFF_FFFF

  // `i64::saturating_add`, upwards.
  function Saturating(x: int): int
  {
    if x > I64_MAX then I64_MAX else x
  }

  datatype Option<+T> = None | Some(value: T)

  datatype Result<+T, +E> = Ok(value: T) | Err(error: E) {

    predicate IsFailure() {
      Err?
    }

    function PropagateFailure<U>(): Result<U, E>
      requires Err?
    {
      Err(error)
    }

    function Extract(): T
      requires Ok?
    {
      value
    }
  }

  lemma Associative<T>(a: seq<T>, b: seq<T>, c: seq<T>)
    ensures (a + b) + c == a + (b + c)
  {
  }

  lemma CardinalityMonotone<T>(small: set<T>, large: set<T>)
    requires small <= large
    ensures |small| <= |large|
  {
    if small != {} {
      var x :| x in small;
      CardinalityMonotone(small - {x}, large - {x});
    }
  }
}
