/** Option and Result, the failure-carrying values every store operation returns. */
module Wrappers {

  /** A value that may be absent (a JavaScript `undefined`/`null`, or a lookup that found nothing). */
  datatype Option<+T> = None | Some(value: T)

  /** The value when present, else `default` (a column the caller leaves out takes the table's default). */
  function OrDefault<T>(o: Option<T>, default: T): (r: T)
    ensures o.Some? ==> r == o.value
    ensures o.None? ==> r == default
  {
    match o
    case Some(v) => v
    case None => default
  }

  /** The outcome of an operation that either yields a value or throws an error. */
  datatype Result<+T, +E> = Ok(value: T) | Err(error: E)
}
