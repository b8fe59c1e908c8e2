/** The result of an operation that either yields a value or aborts (a Rust panic or an
    uncaught Python exception), and an optional value. */
module Outcomes {

  datatype Result<T> = Ok(value: T) | Err

  datatype Option<T> = None | Some(value: T)
}
