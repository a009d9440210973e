/** Optional values, for the source's `Option` and nil results. */
module Options {
  datatype Option<+T> = None | Some(value: T)
}
