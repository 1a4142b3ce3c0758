module Options {
  /** A pointer that may be NULL. */
  datatype Option<+T> = None | Some(value: T)
}
