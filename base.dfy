/** Optional values and the Python exceptions the crawler's helpers can raise. */
module Base {

  datatype Option<+T> = None | Some(value: T)

  /** The exceptions the modelled code raises; each aborts the job that raised it. */
  datatype PyError =
    | ValueError      // `int('')`, or `datetime(...)` with a field out of range
    | IndexError      // `split('/')[1]` on a string without '/', `tweet_details[0]` on an empty list
    | OverflowError   // a `datetime` before year 1, or a `datetime` field beyond a C `int`

  datatype Result<+T> = Ok(value: T) | Err(error: PyError) {
    predicate IsFailure() { Err? }

    function PropagateFailure<U>(): Result<U>
      requires Err?
    {
      Err(error)
    }

    function Extract(): T
      requires Ok?
    {
      value
    }
  }
}
