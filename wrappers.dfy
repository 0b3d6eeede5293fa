/** The optional value the component stores for "no submission yet" (JavaScript `null`). */
module Wrappers {

  datatype Option<+T> = None | Some(value: T)
}
