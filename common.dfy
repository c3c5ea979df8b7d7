/** Shared vocabulary of the model: identifiers, timestamps and the
    Option/Result wrappers used for absent values and error returns. */
module Common {

  /** A document identifier (a MongoDB ObjectId, or a user id). */
  type Id = nat

  /** A point in time, in milliseconds since the epoch. */
  type Time = nat

  /** One calendar day in milliseconds. */
  const DayMs: nat := 24 * 60 * 60 * 1000

  datatype Option<+T> = None | Some(value: T)

  datatype Result<+T, +E> = Ok(value: T) | Err(error: E)
}
