/** Failure-carrying results shared by every module of the model. */
module Wrappers {

  datatype Option<+T> = None | Some(value: T)

  /** What Python raises inside the core: `float()` on a string that is not a
      number, or unpacking a viewBox that does not hold exactly four numbers. */
  datatype Error =
    | NotANumber(text: string)
    | ViewBoxArity(count: nat)

  /** A value or the exception that stopped the computation. */
  datatype Result<+T> = Ok(value: T) | Err(error: Error) {
    predicate IsFailure() {
      Err?
    }

    function PropagateFailure<U>(): Result<U>
      requires Err?
    {
      Err(error)
    }

    function Extract(): T
      requires Ok?
    {
      value
    }
  }
}
