/** Failure-carrying wrappers shared by the other modules: `Option` stands for
    Python's `None`-or-value, `Result` for a value or the error that ends the
    program (`sys.exit` with a message, or an uncaught exception). */
module Results {

  datatype Option<T> = None | Some(value: T)

  datatype Result<T, E> = Success(value: T) | Failure(error: E)
}
