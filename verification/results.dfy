/** Outcomes of the service's calls (internal/models/errors.go). */
module Results {
  datatype ErrorCode = Internal | InvalidArgument | Unauthenticated | Conflict | NotFound

  datatype Result<+T> = Ok(value: T) | Err(code: ErrorCode)

  datatype Option<+T> = None | Some(value: T)
}
