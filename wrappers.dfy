/** Option and Result values shared by every puzzle module. A Rust `None`,
  an `Err`, a Java `null` or a thrown exception becomes one of these. */
module Wrappers {
  datatype Option<T> = None | Some(value: T)
  {
    predicate IsSome() { Some? }
  }

  datatype Result<T> = Ok(value: T) | Err(error: string)
  {
    predicate IsOk() { Ok? }
  }
}
