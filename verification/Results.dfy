/** The exceptions of the encoder and the configuration loader, as values. */
module Results {

  datatype Option<+T> = None | Some(value: T)

  datatype Failure = DomainError | LengthError | InvalidArgument | DataTooLong | RuntimeError

  datatype Result<+T> = Ok(value: T) | Fail(failure: Failure)
}
