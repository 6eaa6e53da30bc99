/** A value that may be absent (`std::optional`, a null output pointer). */
module Options {
  datatype Option<T> = None | Some(value: T)
}
