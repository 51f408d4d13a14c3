/** An optional value: nil pointers, missing rows and error results without a message. */
module Options {
  datatype Option<T> = None | Some(value: T)
}
