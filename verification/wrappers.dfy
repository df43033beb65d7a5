/** Failure-carrying datatypes shared by every module of the model.
  - Option<T>:    a value that may be absent (Swift optionals).
  - Result<T, E>: a promise or throwing call that either fulfils with a value or rejects.
  - Outcome<T>:   a computation that either finishes or hits a Swift runtime trap
                  (an index out of range, a range whose upper bound is below its lower
                  bound, or a force-unwrap of nil). A trap ends the process, so it is
                  kept apart from the errors the library reports.
 */
module Wrappers {

  datatype Option<+T> = None | Some(value: T) {
    function GetOr(default: T): T {
      match this
      case Some(v) => v
      case None => default
    }
  }

  datatype Result<+T, +E> = Ok(value: T) | Err(error: E) {
    predicate IsFailure() {
      Err?
    }

    function PropagateFailure<U>(): Result<U, E>
      requires Err?
    {
      Err(error)
    }

    function Extract(): T
      requires Ok?
    {
      value
    }
  }

  datatype Outcome<+T> = Done(value: T) | Trapped
}
