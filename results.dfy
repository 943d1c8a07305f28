/** Option and Result values shared by the models of `disco` and `history`. */
module Results {

  datatype Option<+T> = None | Some(value: T)

  /** A Go `error` value. Only its identity matters here: the model passes errors through. */
  datatype Error = Error(message: string)

  /** A Go `(T, error)` pair in which exactly one side is meaningful. */
  datatype Result<+T> = Ok(value: T) | Fail(error: Error)
}
