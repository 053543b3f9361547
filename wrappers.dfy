/** Option and Result with the two ways a routine of the front end can fail. */
module Wrappers {

  datatype Option<T> = None | Some(value: T)

  /** A failure: an `Err` string the routine returns, or a panic (an `unwrap`
      of nothing, an unsigned subtraction that underflows). */
  datatype Fault = Raised(message: string) | Panicked(reason: string)

  /** `Result<T, WhyExc>`, usable with `:-`. */
  datatype Result<T> = Ok(value: T) | Err(fault: Fault) {

    predicate IsFailure() {
      Err?
    }

    function PropagateFailure<U>(): Result<U>
      requires Err?
    {
      Err(fault)
    }

    function Extract(): T
      requires Ok?
    {
      value
    }
  }
}
