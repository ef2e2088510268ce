/** The nil-or-value shape Ruby code gets from `||=`, `shift`, `[]` and friends. */
module Options {

  datatype Option<+T> = None | Some(value: T) {

    /** The value, or the given default when this is None. */
    function GetOr(default: T): T {
      match this
      case Some(v) => v
      case None => default
    }
  }
}
