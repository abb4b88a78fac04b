/** An optional value: PHP's `null` / `false` return on one side, a real value on the other. */
module Options {
  datatype Option<T> = None | Some(value: T)
}
