/** Error values as the services and handlers see them, and the result wrappers they travel in. */
module Errors {

  /** An error returned by a call: gorm's record-not-found sentinel, or any other
      error, known only by the text that `err.Error()` yields. */
  datatype Error = RecordNotFound | Failure(text: string)

  /** A value or the error that replaced it (Go's `(T, error)` pair). */
  datatype Result<+T> = Ok(value: T) | Err(error: Error)

  datatype Option<+T> = None | Some(value: T)

  /** The error message the services create themselves. */
  const EMAIL_EXISTS: string := "email already exists"
  const USER_NOT_FOUND: string := "user not found"
  const INVALID_CREDENTIALS: string := "invalid credentials"

  /** What `err.Error()` returns; gorm's sentinel reads "record not found". */
  function Text(e: Error): (t: string)
    ensures e == RecordNotFound ==> t == "record not found"
    ensures e.Failure? ==> t == e.text
  {
    match e
    case RecordNotFound => "record not found"
    case Failure(t) => t
  }
}
