/** The optional value used throughout the model in place of `std::optional` and null pointers. */
module Wrappers {
  datatype Option<+T> = None | Some(value: T)
}
