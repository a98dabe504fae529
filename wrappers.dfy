/** The optional value: the interpreter's input latch holds a key or nothing. */
module Wrappers {

  datatype Option<+T> = None | Some(value: T)
}
