// A value that may be absent: a missing row, an undefined field, a search that found nothing.
module Options {
  datatype Option<T> = None | Some(value: T)
}
