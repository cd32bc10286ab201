/** Error reporting shared by every module of the model.

    The C++ core throws `std::runtime_error` on usage and submission errors,
    and the Python wrappers raise `ValueError`; both become an `Err` value
    carrying the kind of exception and its message. */
module Outcome {

  /** The exception a call of the C++ code raises. */
  datatype Error =
    | RuntimeError(msg: string)
    | ValueError(msg: string)
    | NameError(msg: string)
      /** Raised by the `TensorTraits` constructor for a shape and base tile
          of different lengths or with a base tile extent that is not
          positive; that constructor is not part of this model, and neither
          is its message. */
    | InvalidTraits

  /** Either the value a call produces, or the exception it raises. */
  datatype Result<+T> = Ok(value: T) | Err(error: Error) {
    predicate IsFailure() {
      Err?
    }

    function PropagateFailure<U>(): Result<U>
      requires Err?
    {
      Err(error)
    }

    function Extract(): T
      requires Ok?
    {
      value
    }
  }

  /** Optional value, used where the C++ code returns early or a lookup fails. */
  datatype Option<+T> = None | Some(value: T)
}
