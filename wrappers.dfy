/** The optional value the service uses for `int?` parent ids and for a missing document root. */
module Wrappers {
  datatype Option<+T> = None | Some(value: T)
}
