/** Failure-carrying return values: Go's `(value, error)` pairs become a `Result`,
    and a value that may be missing becomes an `Option`. */
module Results {

  datatype Option<+T> = None | Some(value: T)

  datatype Result<+T, +E> = Success(value: T) | Failure(error: E)
}
