/** Small value wrappers used by the countdown generator model. */
module Wrappers {

  /** What one resume of the countdown generator hands back: a value, or nothing once it is exhausted. */
  datatype Option<+T> = None | Some(value: T)
}
