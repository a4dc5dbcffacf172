/** The optional value used wherever a field may be absent (JavaScript `undefined`)
    or stored as SQL NULL, and the outcome of an operation that may fail. */
module Options {

  datatype Option<+T> = None | Some(value: T)

  datatype Result<+T, +E> = Ok(value: T) | Err(error: E)

}
