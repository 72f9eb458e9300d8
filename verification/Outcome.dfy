/** Shared vocabulary: optional values, results and early returns. */
module Outcome {
  datatype Option<+T> = None | Some(value: T)

  /** The source's early returns and raised errors. */
  datatype Result<+T, +E> = Ok(value: T) | Err(error: E) {
    predicate IsFailure() {
      Err?
    }

    function PropagateFailure<U>(): Result<U, E>
      requires Err?
    {
      Err(error)
    }

    function Extract(): T
      requires Ok?
    {
      value
    }

    /** What a caller sees that keeps only success or the error. */
    function Verdict(): Option<E> {
      if Ok? then None else Some(error)
    }
  }
}
