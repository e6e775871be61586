/** The optional value used where the screens hold `T | null` or `T | undefined`. */
module Wrappers {

  datatype Option<+T> = None | Some(value: T)
}
