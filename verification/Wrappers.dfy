/** The two result shapes shared by every module of the model. */
module Wrappers {
  /** A value that may be absent: a nil pointer, an unset time, a missing key. */
  datatype Option<+T> = None | Some(value: T)

  /** A returned value or a returned error. Error texts are kept only where the code inspects them. */
  datatype Result<+T> = Ok(value: T) | Err(error: string)
  {
    predicate IsFailure() { Err? }

    function PropagateFailure<U>(): Result<U>
      requires Err?
    {
      Err(error)
    }

    function Extract(): T
      requires Ok?
    {
      value
    }
  }
}
