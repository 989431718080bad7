/** The optional value used wherever the engine may produce nothing. */
module Maybe {
  datatype Option<T> = None | Some(value: T)
}
