/** The optional value used wherever the crawler's JavaScript yields `false`, `null` or a thrown error instead of a value. */
module Wrappers {

  datatype Option<+T> = None | Some(value: T)
}
