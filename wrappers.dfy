/** Option and Result values, used for Java's nullable references and thrown exceptions. */
module Wrappers {

  /** A nullable value: `None` stands for Java's `null`. */
  datatype Option<+T> = None | Some(value: T) {
    /** `Optional.ofNullable(this).orElse(default)` */
    function OrElse(default: T): T {
      match this
      case Some(v) => v
      case None => default
    }
  }

  /** The normal result of an operation, or the exception it throws. */
  datatype Result<+T, +E> = Success(value: T) | Failure(error: E)
}
