/** Failure-carrying datatypes shared by every module of the model.

    Java's `null` becomes `None`, and the runtime exceptions that the modelled
    code throws (or lets escape) become the `Err` case of `Result`. */
module Wrappers {

  /** A value that may be absent (a Java or JavaScript null). */
  datatype Option<+T> = None | Some(value: T) {
    function GetOr(default: T): T {
      match this
      case Some(v) => v
      case None => default
    }
  }

  /** The exceptions the modelled code raises. */
  datatype Exception =
    | NullPointer
    | IllegalArgument(message: string)
    | IndexOutOfBounds
    | IOError(message: string)

  /** Either a normal return value or an exception. */
  datatype Result<+T> = Ok(value: T) | Err(error: Exception)

  /** No element occurs twice: the key list of an insertion-ordered map. */
  predicate Distinct<T(==)>(xs: seq<T>) {
    forall i, j :: 0 <= i < j < |xs| ==> xs[i] != xs[j]
  }
}
