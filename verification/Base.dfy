/** Failure-carrying wrappers shared by every module, and the Python
    exceptions that the modelled code lets escape to its caller. */
module Base {

  datatype Option<+T> = None | Some(value: T)

  datatype Result<+T, +E> = Ok(value: T) | Err(error: E) {
    predicate IsFailure() { Err? }

    function PropagateFailure<U>(): Result<U, E>
      requires Err?
    {
      Err(error)
    }

    function Extract(): T
      requires Ok?
    {
      value
    }
  }

  /** Exceptions raised by the Python runtime or the database driver that the
      modelled functions do not catch. */
  datatype PyException =
    | TypeError          // an operation applied to a value of the wrong type
    | ValueError         // int(), strptime() or a datetime constructor refused its input
    | IndexError         // a list subscript past the end
    | KeyError           // a dict subscript with a missing key
    | AttributeError     // a dict method called on a non-dict
    | OverflowError      // datetime arithmetic left years 1..9999
    | DuplicateKeyError  // the unique (type, locationId) index refused an insert
}
