/** Value types shared by the service modules: the error-carrying results that
    replace Go's `(value, error)` pairs, optional values for Go's pointer
    fields, and timestamps with Go's distinguished zero time. */
module Common {

  /** Go's `*T` fields and nil lookups. */
  datatype Option<+T> = None | Some(value: T)

  /** `(T, error)` returned by an operation: either a value or one error kind. */
  datatype Result<+T, +E> = Ok(value: T) | Err(error: E)

  /** A bare `error` return: nil (`Pass`) or one error kind. */
  datatype Outcome<+E> = Pass | Fail(error: E)

  /** `time.Time` reduced to what the services use: the zero time, tested by
      `IsZero`, or an instant on a linear clock. */
  datatype Date = ZeroDate | At(instant: int)

  /** `d.After(now)` for a non-zero date. */
  predicate IsAfter(d: Date, now: int) {
    d.At? && d.instant > now
  }

  /** A Go `*string` that is non-nil and not the empty string. */
  predicate Present(s: Option<string>) {
    s.Some? && s.value != ""
  }
}
