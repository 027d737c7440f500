/** The optional value of the firmware model and the error channel of the host model. */
module Wrappers {

  /** An optional value: a received byte, or nothing this tick. */
  datatype Option<+T> = None | Some(value: T)
}
