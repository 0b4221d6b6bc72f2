/** The optional-value wrapper shared by the clock parser and the timer state. */
module Wrappers {

  /** A value that may be absent; `None` plays the part of JavaScript's `null`. */
  datatype Option<+T> = None | Some(value: T)
}
