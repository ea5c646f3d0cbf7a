/** Outcomes shared by the whole model. */
module Wrappers {

  datatype Option<+T> = None | Some(value: T)

  /** A Go `(value, error)` pair.  Error texts are not modelled, so any two failures are equal. */
  datatype Result<T> = Err | Ok(value: T) {
    predicate IsFailure() {
      Err?
    }

    function PropagateFailure<U>(): Result<U>
      requires Err?
    {
      Err
    }

    function Extract(): T
      requires Ok?
    {
      value
    }

    function GetOr(default: T): T
    {
      if Ok? then value else default
    }
  }
}
