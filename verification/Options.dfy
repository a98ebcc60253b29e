/** The optional value that stands for `std::optional` throughout the model. */
module Options {
  datatype Option<+T> = None | Some(value: T)
}
