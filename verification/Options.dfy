// The optional values the source writes as `T | null`.
module Options {
  datatype Option<+T> = None | Some(value: T)
}
