/** Failure-carrying results shared by every module of the model.
    A Rust `panic!` / `env::panic_str` aborts the whole receipt; in the
    model it is an `Err`/`Fail` value carrying the panic message. */
module Wrappers {

  datatype Option<+T> = None | Some(value: T)

  /** The value of an operation that may abort with a message. */
  datatype Result<+T> = Ok(value: T) | Err(msg: string)

  /** An operation without a value that may abort with a message. */
  datatype Outcome = Pass | Fail(msg: string)
}
