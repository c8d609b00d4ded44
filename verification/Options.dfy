/** The optional value used wherever the source stores a nullable column or returns `None`, and the result of code that may raise. */
module Options {
  datatype Option<+T> = None | Some(value: T)

  datatype Result<+T> = Ok(value: T) | Invalid
}
