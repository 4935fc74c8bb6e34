/** The optional value used where the C++ code returns `std::optional` or an end iterator. */
module Wrappers {
  datatype Option<+T> = None | Some(value: T)
}
