/** Failure-carrying values: the model's stand-in for Rust's `Option` and for
    the `panic!`s and `unwrap()`s of the interpreter, which become `Failure`. */
module Results {

  datatype Option<+T> = None | Some(value: T)

  datatype Result<+T, +E> = Success(value: T) | Failure(error: E)
}
