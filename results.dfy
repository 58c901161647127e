/** Option and Result values used for the program's missing values and raised errors. */
module Results {

  datatype Option<T> = None | Some(value: T)

  /** `Err` stands for an exception escaping the modelled function. */
  datatype Result<T, E> = Ok(value: T) | Err(error: E)
}
