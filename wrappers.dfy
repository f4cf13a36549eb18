/** The conventional optional value, used where the engine raises an error. */
module Wrappers {

  datatype Option<+T> = None | Some(value: T)
}
