/** The pieces of java.lang that the configuration core leans on:
    a reference that may be null, and the exceptions the core throws. */
module Lang {

  /** A Java reference that may be null: None is null. */
  datatype Option<+T> = None | Some(value: T) {
    function GetOr(default: T): T {
      match this
      case Some(v) => v
      case None => default
    }
  }

  /** The unchecked exceptions the modelled code can raise. */
  datatype Exception =
    | NullPointerException
    | NumberFormatException
    | IllegalArgumentException
    | RuntimeException

  /** The outcome of a Java call: a normal return, or a thrown exception. */
  datatype Result<+T> = Ok(value: T) | Thrown(exception: Exception)
}
