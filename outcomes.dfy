/** Result shapes shared by the model: Rust's `Option` and `Result`, and a
    computation that either returns or panics (an `expect`, `unwrap` or
    `panic!` that fires). */
module Outcomes {

  datatype Option<+T> = None | Some(value: T)

  datatype Result<+T, +E> = Ok(value: T) | Err(error: E)

  /** The outcome of running Rust code that may abort the thread. For
      `panic!` the message is the whole panic message; for `expect` and
      `unwrap` on an `Err` it is the fixed part, before the `: ` and the
      `Debug` rendering of the error that Rust appends. */
  datatype Run<+T> = Done(value: T) | Panic(message: string)

  /** The fixed part of the panic message of `.expect("Wrong length")`. */
  const WrongLength: string := "Wrong length"

  /** The fixed part of the panic message of `.unwrap()` on an `Err`. */
  const UnwrapOnErr: string := "called `Result::unwrap()` on an `Err` value"
}
