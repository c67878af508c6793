/** A value, or one of libfdt's negative error codes. */
module Results {
  type Error = e: int | e < 0 witness -1

  datatype Result<+T> = Ok(value: T) | Err(code: Error)
}
