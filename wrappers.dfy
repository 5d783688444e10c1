/** Swift's `Optional`, as the model's result type for lookups and foreign calls that can fail. */
module Wrappers {

  datatype Option<+T> = None | Some(value: T)

}
