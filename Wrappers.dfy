/** The optional value used for JSON `null`, absent keys and failed webhook posts. */
module Wrappers {

  datatype Option<+T> = None | Some(value: T)
}
