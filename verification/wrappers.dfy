/** The optional value used wherever the Kotlin code returns a nullable `T?`. */
module Wrappers {

  /** `None` plays the role of Kotlin's `null`. */
  datatype Option<+T> = None | Some(value: T) {

    /** The Elvis operator `this ?: default`. */
    function GetOr(default: T): T {
      match this
      case Some(v) => v
      case None => default
    }
  }
}
