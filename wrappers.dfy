/** Optional values and failures shared by every module of the model. */
module Wrappers {

  /** A Java reference that may be null. */
  datatype Option<T> = None | Some(value: T)

  /** The exceptions the modelled code throws, one constructor per kind. */
  datatype Error =
    | ComposeError          // ComposeException: two ops do not chain
    | TransformError        // TransformException: two ops do not share a base
    | IllegalState          // IllegalStateException
    | IllegalArgument       // IllegalArgumentException
    | NullPointer           // NullPointerException
    | Unsupported           // UnsupportedOperationException
    | IndexOutOfBounds      // Array-/StringIndexOutOfBoundsException
    | NumberFormat          // NumberFormatException from Integer.parseInt
    | AssertionFailed       // a Java `assert` that does not hold (assertions enabled)
    | DeltaRejected         // ChangeRejected / SlobModel.DeltaRejected
    | InvalidSnapshot       // SlobModel.InvalidSnapshot
    | BatchTooLarge         // LocalMutationProcessor.BatchTooLargeException
    | TooManyListeners      // SlobMessageRouter.TooManyListenersException
    | PermanentFailure      // PermanentFailure: the stored history is corrupt
    | BadRequest            // BadRequestException: a rejected update, reported to the client
    | Runtime               // any other RuntimeException

  /** The outcome of a call that either returns a value or throws. */
  datatype Result<T> = Ok(value: T) | Err(error: Error)
  {
    predicate IsFailure() { Err? }

    function PropagateFailure<U>(): Result<U>
      requires Err?
    {
      Err(error)
    }

    function Extract(): T
      requires Ok?
    {
      value
    }
  }

  /** The outcome of a call that returns nothing or throws. */
  datatype Outcome = Pass | Fail(error: Error)
  {
    predicate IsFailure() { Fail? }

    function PropagateFailure(): Outcome
      requires Fail?
    {
      this
    }
  }
}
