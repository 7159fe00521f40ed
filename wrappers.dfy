/** The optional value the analytics use for a value pandas may leave missing. */
module Wrappers {

  datatype Option<+T> = None | Some(value: T)
}
