/** Values shared by every module: optional values, the errors the services raise and results. */
module Common {

  datatype Option<T> = None | Some(value: T)

  /** An error as it reaches the error-handling middleware. An AppError carries an HTTP status and a
      message; any other exception (a TypeError from dereferencing null, a ReferenceError from an
      undeclared name) is a RuntimeError. */
  datatype Error = AppError(status: int, message: string) | RuntimeError

  datatype Result<T> = Ok(value: T) | Err(error: Error)

  /** The status and body the error handler writes for an error: an AppError keeps its own status and
      message, anything else becomes a 500. */
  function ErrorResponse(e: Error): (int, string)
  {
    match e
    case AppError(status, message) => (status, message)
    case RuntimeError => (500, "Something went wrong")
  }
}
