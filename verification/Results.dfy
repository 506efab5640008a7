/** Failure-carrying values shared by every module of the model. */
module Results {

  /** The source's `Option`. */
  datatype Option<+T> = None | Some(value: T)

  /** The source's `Result`. Error values are enumerations: message texts are not modelled. */
  datatype Result<+T, +E> = Success(value: T) | Failure(error: E)
}
