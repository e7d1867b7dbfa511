/** Optional values: the model of nil pointers, absent map entries and (value, error) results. */
module Options {
  datatype Option<+T> = None | Some(value: T)
}
