/** Small value wrappers shared by the whole model. */
module Wrappers {

  /** Kotlin's nullable `T?`: `None` stands for `null`. */
  datatype Option<+T> = None | Some(value: T) {
    /** The Elvis operator `x ?: default`. */
    function GetOr(default: T): T {
      match this
      case Some(v) => v
      case None => default
    }
  }

  /**
   * What reading and decoding one bundled asset file yields: the decoded
   * value, or the message of the exception that opening or decoding raised
   * (a missing file and a malformed payload both end up here).
   */
  datatype Asset<+T> = Decoded(value: T) | Unavailable(reason: string)
}
