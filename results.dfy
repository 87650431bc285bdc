/** Outcome of an operation that either returns a value or throws.
    The JavaScript functions of this project signal failure by throwing an
    `Error` carrying a message; here that becomes the `Err` arm. */
module Results {

  datatype Result<+T, +E> = Ok(value: T) | Err(error: E)

}
