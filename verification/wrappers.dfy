/** Plain wrappers used throughout the model: `Option` is an optional value,
    standing for JavaScript's `undefined`/`null` alternatives, and `Result` a
    value or an error, standing for a thrown error. */
module Wrappers {

  datatype Option<+T> = None | Some(value: T) {

    /** The encapsulated value, or `default` when there is none. */
    function GetOr(default: T): T {
      match this
      case Some(v) => v
      case None => default
    }
  }

  datatype Result<+R, +E> = Success(value: R) | Failure(error: E)
}
