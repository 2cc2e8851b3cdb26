/** Values that may be the missing-value sentinel, and error returns. */
module Missing {

  // A float or double of the program: a real, or the sentinel that util::missingValue returns.
  datatype Datum = Missing | Value(v: real)

  // The contribution of a datum to a sum that skips missing entries.
  function OrZero(d: Datum): (r: real) {
    if d.Missing? then 0.0 else d.v
  }

  datatype Option<+T> = None | Some(value: T)

  datatype Result<+T> = Ok(value: T) | Err(message: string)
}
