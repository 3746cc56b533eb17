/** An optional value, used where the driver code tests for a null reference or
    falls through to a `default` branch. */
module Options {
  datatype Option<+T> = None | Some(value: T)
}
