/** Failure-compatible wrappers and the Python exceptions the routine can raise. */
module Results {

  /** The exceptions that can escape `device_inventory`. */
  datatype Exception =
    | NoSectionError(section: string)            // ConfigParser.get on a missing section
    | NoOptionError(option: string, section: string)  // ConfigParser.get on a missing option
    | KeyError(key: string)                      // reading a dict key that is absent

  datatype Option<+T> = None | Some(value: T)

  /** A computation that either produces a value or raises. */
  datatype Result<+T> = Ok(value: T) | Raised(error: Exception) {
    predicate IsFailure() { Raised? }

    function PropagateFailure<U>(): Result<U>
      requires Raised?
    {
      Raised(error)
    }

    function Extract(): T
      requires Ok?
    {
      value
    }
  }
}
