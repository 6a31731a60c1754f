/** Types shared by every module of the model. */
module Prelude {

  datatype Option<+T> = None | Some(value: T)

  /** A moment in time. The unit does not matter to any claim. */
  type Time = int
}
