/** The Some/None wrapper that stands for Python's `Optional[...]` (a value or `None`). */
module Optional {

  datatype Option<+T> = None | Some(value: T)
}
