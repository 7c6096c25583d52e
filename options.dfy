/** Optional values: a nullable column or an absent association. */
module Options {
  datatype Option<T> = None | Some(value: T)
}
