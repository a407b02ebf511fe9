/** What several modules share. */
module Basics {

  datatype Option<T> = None | Some(value: T)

  // Nanoseconds.
  const SECOND := 1_000_000_000
}
