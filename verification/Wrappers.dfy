/** Results of calls that the sources answer with a value, None or an exception. */
module Wrappers {

  datatype Option<+T> = None | Some(value: T)

  /** A call that either returns a value or raises. */
  datatype Result<+T> = Returned(value: T) | Raised

  /** A call that returns nothing, or raises; `:-` then leaves the caller, as an uncaught exception does. */
  datatype Outcome = Completed | Aborted {
    predicate IsFailure() { Aborted? }
    function PropagateFailure(): Outcome requires Aborted? { Aborted }
  }
}
