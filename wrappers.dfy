/** Option and Result, the two failure-carrying values the Rust code returns. */
module Wrappers {

  datatype Option<+T> = None | Some(value: T)

  /** `Result<T, ()>`: the rule parser and the symbol conversions carry no error payload. */
  datatype Result<+T> = Ok(value: T) | Err
}
