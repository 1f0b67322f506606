/** Option, Result and Python's prefix slice, shared by every module. */
module Common {

  datatype Option<+T> = None | Some(value: T)

  /** A value, or the error that the Python code raises. */
  datatype Result<+T, +E> = Success(value: T) | Failure(error: E) {
    predicate IsFailure() {
      Failure?
    }

    function PropagateFailure<U>(): Result<U, E>
      requires Failure?
    {
      Failure(error)
    }

    function Extract(): T
      requires Success?
    {
      value
    }
  }

  /** The first `n` elements: `s[:n]`. */
  function Take<T>(s: seq<T>, n: nat): seq<T> {
    if n < |s| then s[..n] else s
  }
}
