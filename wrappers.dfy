/** Failure-carrying results used to model the exceptions the Java code throws. */
module Wrappers {

  /** A nullable Java reference or an empty `Optional`. */
  datatype Option<+T> = None | Some(value: T)

  /** The kinds of exception the modelled code raises. */
  datatype Error =
    | IllegalArgument     // IllegalArgumentException from a validating constructor or setter
    | NullArgument        // NullPointerException from Objects.requireNonNull
    | IllegalState        // IllegalStateException (a render DAG that cannot be ordered)
    | InputNotFound       // IOException: the media file does not exist
    | DegenerateRegion    // a zero-sized region the floating-point crop arithmetic would divide by

  /** A value or the exception that replaced it. */
  datatype Result<+T> = Ok(value: T) | Err(error: Error) {
    predicate IsFailure() { Err? }

    function PropagateFailure<U>(): Result<U>
      requires Err?
    {
      Err(error)
    }

    function Extract(): T
      requires Ok?
    {
      value
    }
  }
}
