/** Types shared by every part of the karma model. */
module Base {

  /** A value that may be absent; `None` stands for Ruby's `nil`. */
  datatype Option<+T> = None | Some(value: T) {
    function GetOr(default: T): T {
      match this
      case Some(v) => v
      case None => default
    }
  }

  /** Chat user ids are opaque strings handed over by the chat adapter. */
  type UserId = string
}
