/** Failure values of the descriptor operations and the wrappers that carry them.

    Every failure the descriptor raises in Python is one constructor of `Error`;
    `Raised` maps it to the Python exception class `metatensor.py` raises. */
module Errors {

  /** Why an operation failed. */
  datatype Error =
    | EmptyStack          // stacking an empty list of descriptors
    | StackShapeMismatch  // `safe` stacking met a shape differing from the first one
    | StackDtypeMismatch  // `safe` stacking met a dtype differing from the requested one
    | IndexOutOfRange     // a Python list or tuple was indexed past its end

  /** The Python exception classes `metatensor.py` raises. */
  datatype PyException = RuntimeError | TypeError | IndexError

  /** The Python exception class raised for each failure. */
  function Raised(e: Error): (x: PyException)
    ensures x == TypeError <==> e == StackDtypeMismatch
    ensures x == IndexError <==> e == IndexOutOfRange
  {
    match e
    case EmptyStack => RuntimeError
    case StackShapeMismatch => RuntimeError
    case StackDtypeMismatch => TypeError
    case IndexOutOfRange => IndexError
  }

  /** Either a value or the failure that prevented computing it. */
  datatype Result<+T> = Ok(value: T) | Err(error: Error) {

    /** True if this is a failure. */
    predicate IsFailure() {
      Err?
    }

    /** Carries the failure over to a result of another value type. */
    function PropagateFailure<U>(): Result<U>
      requires Err?
    {
      Err(error)
    }

    /** The value of a success. */
    function Extract(): T
      requires Ok?
    {
      value
    }
  }

  /** An optional value (Python's `None` or a value). */
  datatype Option<+T> = None | Some(value: T)
}
