/** Option and Result values for the places where the broker returns an
    optional value or an error. */
module Outcomes {

  datatype Option<T> = None | Some(value: T)

  /** A Rust `Result` whose error side is reduced to a message. */
  datatype Result<T> = Ok(value: T) | Err(error: string)
}
