/** Failure-carrying values shared by the backend model: `Option` for a value
    that may be missing (a JavaScript `null`/`undefined`) and `Result` for an
    operation that either returns a value or throws an `Error` with a message. */
module Results {

  datatype Option<+T> = None | Some(value: T)

  datatype Result<+T> = Ok(value: T) | Err(message: string)
}
