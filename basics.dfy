// Small value types shared by every module of the model.
module Basics {

  datatype Option<T> = None | Some(value: T)

  /** The outcome of an operation that either yields a value or fails with an error. */
  datatype Result<T, E> = Success(value: T) | Failure(error: E)

  /** JavaScript's Math.abs on integers. */
  function Abs(x: int): (r: nat)
    ensures r == x || r == -x
  {
    if x < 0 then -x else x
  }

  /** JavaScript's Math.max on two integers. */
  function Max(a: int, b: int): (r: int)
    ensures r >= a && r >= b
    ensures r == a || r == b
  {
    if a >= b then a else b
  }
}
