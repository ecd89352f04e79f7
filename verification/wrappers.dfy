/** The optional value used wherever the extractor may produce nothing: a call
    that is not recognised, an argument that is not a literal, a role that the
    call does not carry. */
module Wrappers {

  datatype Option<+T> = None | Some(value: T) {

    /** The carried value, or `default` when there is none. */
    function GetOr(default: T): T {
      match this
      case Some(v) => v
      case None => default
    }
  }
}
