/** The usual optional value, used wherever the source has `null`/`undefined` or a swallowed exception. */
module Wrappers {
  datatype Option<+T> = None | Some(value: T)

  /** The outcome of a call that may throw: its value, or the message of the error it raised. */
  datatype Attempt<+T> = Done(value: T) | Threw(message: string)
}
