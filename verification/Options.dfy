/** A value or none: a pointer that can be null, a slot that can be empty. */
module Options {

  datatype Option<T> = None | Some(value: T)
}
