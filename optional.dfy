/** A value that may be absent: `null` from the DOM, or a handler that returns early. */
module Optional {
  datatype Option<T> = None | Some(value: T)
}
