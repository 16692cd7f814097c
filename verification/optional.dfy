/** A value that a lookup may fail to produce: JavaScript's `undefined` from `find`. */
module Optional {

  datatype Option<+T> = None | Some(value: T)
}
