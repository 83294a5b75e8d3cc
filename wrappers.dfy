/** The optional value used where the wallet stores `None` or omits a key. */
module Wrappers {
  datatype Option<+T> = None | Some(value: T)
}
