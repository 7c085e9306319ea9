/** Python's `None`-or-value, as used throughout the tab module. */
module Options {

  datatype Option<+T> = None | Some(value: T)
}
