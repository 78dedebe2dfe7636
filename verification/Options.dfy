/** The conventional optional value: a C++ pointer that may be null, without its address. */
module Options {
  datatype Option<+T> = None | Some(value: T)
}
