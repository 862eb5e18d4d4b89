/** Failure-carrying wrapper used where the program returns `None` or a falsy value. */
module Wrappers {

  datatype Option<+T> = None | Some(value: T)

}
