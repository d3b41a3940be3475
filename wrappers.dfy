/** The optional value used wherever the Swift code returns or stores an optional. */
module Wrappers {

  datatype Option<+T> = None | Some(value: T) {

    /** `self ?? default` */
    function GetOr(default: T): T {
      match this
      case Some(v) => v
      case None => default
    }
  }
}
