/** Types used by several modules. */
module Wrappers {
  datatype Option<+T> = Some(value: T) | None

  /** A write takes effect and reports it, takes effect and reports an error, or does neither. */
  datatype Effect = Works | Late | Fails
}
