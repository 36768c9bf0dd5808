/** The Option type shared by every module of the model. */
module Prelude {
  datatype Option<+T> = None | Some(value: T)
}
