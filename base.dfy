/** Option and Result values standing for Java's null / Optional and for exceptions. */
module Base {

  /** A value that may be missing (Java `null`, `Optional.empty()`). */
  datatype Option<+T> = None | Some(value: T)

  /** Why persisting an entity failed. */
  datatype Error =
    | ConstraintViolation  // a Bean Validation or NOT NULL column constraint rejected the entity

  /** The outcome of an operation that may throw. */
  datatype Result<+T> = Ok(value: T) | Err(error: Error)
}
