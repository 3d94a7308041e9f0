/** Option and Result values shared by the catalog lookup and the form validator. */
module Results {

  /** The outcome of a lookup that may find nothing (`undefined` in the TypeScript component). */
  datatype Option<+T> = None | Some(value: T)

  /** The outcome of a validation: the accepted value, or the error the validator reports. */
  datatype Result<+T, +E> = Ok(value: T) | Err(error: E)
}
