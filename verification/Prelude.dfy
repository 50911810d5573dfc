// Result shapes shared by the modules of the model.
module Prelude {

  datatype Option<+T> = None | Some(value: T) {
    // This value, or `other` where there is none.
    function Else(other: Option<T>): Option<T> {
      if Some? then this else other
    }

    function GetOr(default: T): T {
      if Some? then value else default
    }
  }

  datatype Result<+T, +E> = Ok(value: T) | Err(error: E) {
    predicate IsFailure() { Err? }

    function PropagateFailure<U>(): Result<U, E>
      requires Err?
    {
      Err(error)
    }

    function Extract(): T
      requires Ok?
    {
      value
    }
  }

  // A guard that either passes or throws.
  datatype Guard<+E> = Pass | Reject(error: E) {
    predicate IsFailure() { Reject? }

    function PropagateFailure<U>(): Result<U, E>
      requires Reject?
    {
      Err(error)
    }
  }
}
