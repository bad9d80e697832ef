/** Shared vocabulary: optional values, results and the Java exceptions that the
    modelled code throws synchronously to its callers. */
module Lang {

  datatype Option<+T> = None | Some(value: T)

  /** The exceptions the worker services and their collaborators raise. */
  datatype JavaError =
    | IllegalArgumentException(message: string)
    | NullPointerException(message: string)
    | AssertionError(message: string)
    | RuntimeException(message: string)
    | WorkerServiceDeadException
    | InsufficientCapacityException
    | NoSuchElementException
    | ArithmeticException
    | ArrayIndexOutOfBoundsException(index: int)

  /** A call that either returns a value or throws a JavaError. */
  datatype Result<+T> = Ok(value: T) | Err(error: JavaError) {
    predicate IsFailure() { Err? }

    function PropagateFailure<U>(): Result<U>
      requires Err?
    {
      Err(error)
    }

    function Extract(): T
      requires Ok?
    {
      value
    }
  }
}
