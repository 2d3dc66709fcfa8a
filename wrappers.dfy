/** Java's nullable references and thrown exceptions, made explicit as values. */
module Wrappers {

  /** A Java reference that may be null, or a `java.util.Optional`: `None` is null or empty respectively. */
  datatype Option<+T> = None | Some(value: T)

  /** The outcome of a Java call that either returns a value or throws. */
  datatype Result<+R, +E> = Ok(value: R) | Err(error: E)
}
