/** Optional values, for the places where the simulator passes a null pointer, an end iterator or
    an empty port. */
module Options {
  datatype Option<+T> = None | Some(value: T)
}
