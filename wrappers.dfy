/**
 * Results shared by every module of the model.  The C++ code reports
 * failures by throwing standard exceptions, and the model returns the
 * exception's class instead.
 */
module Wrappers {

  datatype Option<T> = None | Some(value: T)

  /** The failure classes the modelled code can raise. */
  datatype Error =
    | LogicError        // std::logic_error
    | InvalidArgument   // std::invalid_argument
    | OutOfRange        // std::out_of_range
    | RuntimeError      // Python RuntimeError
    | AssertionFailed   // a failed C assert(): the program aborts
    | BadArrayLength    // std::bad_array_new_length from an array of negative size
    | Undefined         // C++ undefined behaviour (an access past the end of a container)

  datatype Result<T> = Ok(value: T) | Err(error: Error)
  {
    predicate IsFailure() { Err? }
    function PropagateFailure<U>(): Result<U> requires Err? { Err(error) }
    function Extract(): T requires Ok? { value }
  }
}
