/** A value that may be absent: the NULL pointer of a C function result. */
module Options {

  datatype Option<+T> = None | Some(value: T)
}
