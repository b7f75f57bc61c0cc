/** An optional value: `undefined` in the source becomes None. */
module Optional {
  datatype Option<T> = None | Some(value: T)
}
