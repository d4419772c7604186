/** Failure-carrying result types shared by all modules of the model. */
module Wrappers {

  /** A value that may be absent (C#'s `null` / `Nullable<T>`). */
  datatype Option<T> = None | Some(value: T)

  /** Either a value or the error the C# code would throw or return. */
  datatype Result<T, E> = Ok(value: T) | Err(error: E)
}
