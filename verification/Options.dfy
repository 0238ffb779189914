// A value that may be absent: a NULL column, a free lock, a missing row.
module Options {
  datatype Option<+T> = None | Some(value: T)
}
