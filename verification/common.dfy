/** Small failure-carrying datatypes shared by the three scripts' models. */
module Common {

  /** A value that may be absent (Python's `None`). */
  datatype Option<+T> = None | Some(value: T) {

    /** The value, or `default` when absent. */
    function GetOr(default: T): T {
      match this
      case Some(v) => v
      case None => default
    }
  }

  /** Either a value or the error that stopped its computation (a raised exception). */
  datatype Result<+R, +E> = Ok(value: R) | Err(error: E)

  /** Pass/fail of a check, carrying the diagnostic on failure. */
  datatype Outcome<+E> = Pass | Fail(error: E)

  /** Python's process exit status convention: 0 on success, 1 on any failure. */
  function ExitStatus<E>(o: Outcome<E>): int {
    if o.Pass? then 0 else 1
  }
}
