/** An optional value, for what the page may or may not hold: a stored
    entry, an element, a pending scroll target. */
module Options {
  datatype Option<T> = None | Some(value: T)
}
