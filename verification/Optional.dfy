/** The conventional optional value, for std::optional results and failed look-ups. */
module Optional {
  datatype Option<+T> = None | Some(value: T)
}
