/** A value that may be absent: JavaScript's `NaN` result of a failed parse,
    or a `null` field of a saved record. */
module Optional {
  datatype Option<T> = None | Some(value: T)
}
