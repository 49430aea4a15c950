/** Optional values, and what a call that may raise comes to. */
module Outcomes {
  datatype Option<+T> = None | Some(value: T)

  datatype Outcome<+T, +E> = Ok(value: T) | Err(error: E) {
    predicate IsFailure() { Err? }

    function PropagateFailure<U>(): Outcome<U, E>
      requires Err?
    {
      Err(error)
    }

    function Extract(): T
      requires Ok?
    {
      value
    }
  }
}
