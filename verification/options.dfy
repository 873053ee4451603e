/** The optional value used where a JavaScript property may be absent or a
    parameter may be left `undefined`. */
module Options {

  datatype Option<+T> = None | Some(value: T) {

    /** Returns the value inside `Some`, or `default` when absent. */
    function GetOr(default: T): T
    {
      match this
      case Some(v) => v
      case None => default
    }
  }
}
