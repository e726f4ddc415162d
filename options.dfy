/** Optional values, standing for Java references that may be null. */
module Options {

  datatype Option<+T> = None | Some(value: T)
}
