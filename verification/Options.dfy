/** The optional value used where the Python code has `None` or a missing file. */
module Options {
  datatype Option<+T> = None | Some(value: T) {

    function GetOr(default: T): T {
      match this
      case Some(v) => v
      case None => default
    }
  }
}
