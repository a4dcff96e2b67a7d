/** The optional value that stands in for Java's nullable references. */
module Wrappers {

  /** `None` plays the part of `null`. */
  datatype Option<+T> = None | Some(value: T)
}
