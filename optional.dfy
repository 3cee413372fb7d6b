// An optional value: what the C code signals with a NULL pointer or a
// "not found" return.

module Optional {

  datatype Option<T> = None | Some(value: T)
}
