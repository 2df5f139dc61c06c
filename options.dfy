/** The usual optional value, for lookups that may find nothing. */
module Options {

  datatype Option<T> = None | Some(value: T)

}
