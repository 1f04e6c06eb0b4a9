/** Small value wrappers shared by every module of the model. */
module Wrappers {

  datatype Option<+T> = None | Some(value: T)

  datatype Result<+T, +E> = Ok(value: T) | Err(error: E)

  /** The unit type `()`. */
  datatype Unit = Unit

  /**
   * The way a call ends. `Panic` is a Rust panic that unwinds to the caller
   * (the guards it unwinds through still run); `Abort` ends the process, as
   * a panic inside `abort_on_unwind` or a destructor does.
   */
  datatype Outcome<+T> = Ret(value: T) | Panic(message: string) | Abort
}
