/** The optional value used for anonymous viewers, nullable foreign keys and lookups. */
module Wrappers {

  datatype Option<+T> = None | Some(value: T)
}
