/** The outcome of an operation that may fail, standing for a Kotlin call that
    either returns a value or throws. */
module Wrappers {

  datatype Result<+T, +E> = Ok(value: T) | Err(error: E)
}
