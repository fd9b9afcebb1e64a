/** Error results for operations of the engine that raise in the Python source. */
module Results {

  /** What the source raises. */
  datatype Error =
    | KeyError(value: int)    // `set.remove(value)` of a value that is not in the set
    | EmptyArgmax             // `np.argmax([])` over a node without children
    | EmptyPop                // `list.pop()` of a node without an untried action
    | ZeroDivision            // `c.q() / c.n()` for a child that was never visited

  datatype Result<T> = Success(value: T) | Failure(error: Error)
  {
    predicate IsFailure()
    {
      Failure?
    }

    function PropagateFailure<U>(): Result<U>
      requires Failure?
    {
      Failure(error)
    }

    function Extract(): T
      requires Success?
    {
      value
    }
  }

  datatype Option<T> = None | Some(value: T)
}
