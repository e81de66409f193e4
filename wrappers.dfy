/** Optional values (a Java reference that may be null) and the outcome of a
    step that may throw a Java exception. */
module Wrappers {

  /** `None` stands for Java's `null`. */
  datatype Option<+T> = None | Some(value: T)

  /** `Thrown` stands for any exception; what was thrown is only logged by the
      importer, so the model does not keep it. */
  datatype Outcome<+T> = Ok(value: T) | Thrown
}
