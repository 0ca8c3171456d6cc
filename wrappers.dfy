/** Option: stands in for the null references the editor code returns and tests. */
module Wrappers {
  datatype Option<+T> = None | Some(value: T)
}
