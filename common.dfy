/** Small wrapper datatypes shared by every module of the model. */
module Common {

  /** Python's `None` versus a present value. */
  datatype Option<T> = None | Some(value: T)

  /** A return value or the exception the source would raise instead. */
  datatype Result<T, E> = Ok(value: T) | Err(error: E)

  /** The outcome of calling a collaborator that may raise. */
  datatype Call<T> = Raised | Returned(value: T)
}
