/** Optional values, and results that carry a value or an error. */
module Wrappers {
  datatype Option<+T> = None | Some(value: T)

  datatype Result<+T, +E> = Ok(value: T) | Err(error: E)
}

/** Instants and octets. */
module Units {
  // Nanoseconds since the Unix epoch. Go's time.Time is wider than int64.
  type Time = int

  type Byte = x: int | 0 <= x < 256
}
