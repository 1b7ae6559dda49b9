/**
 Optional values: JavaScript's `null`/`undefined` for a value that may be
 absent, such as a song's tempo before it is tapped or an unset loop end.
 */
module Maybe {

  /** A value that may be absent (JavaScript's `null`). */
  datatype Option<+T> = None | Some(value: T)
}
