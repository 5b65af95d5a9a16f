/** The two ways a value can be absent: an optional JSON field, and an operation that raises. */
module Outcome {

  /** A value that may be missing, as an absent key of a parsed JSON object. */
  datatype Option<T> = None | Some(value: T)

  /** An operation's value, or the error the Python code raises instead of returning one. */
  datatype Result<T, E> = Ok(value: T) | Err(error: E)

  /** `d.get(key, fallback)`: the present value, or the fallback when the key is absent. */
  function ValueOr<T>(o: Option<T>, fallback: T): T {
    if o.Some? then o.value else fallback
  }
}
