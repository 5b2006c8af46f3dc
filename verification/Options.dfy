module Options {

  datatype Option<+T> = None | Some(value: T) {

    /** The value if there is one, or else the default. */
    function GetOr(default: T): T {
      match this
      case Some(v) => v
      case None => default
    }
  }
}
