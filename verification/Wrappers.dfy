/** The failure-free optional value the modules of the project share. */
module Wrappers {
  datatype Option<+T> = None | Some(value: T)
}
