/** The optional value used wherever the program may get `None` back:
    a failed fetch, an unparsable timestamp, a missing estimate. */
module Options {

  datatype Option<+T> = None | Some(value: T) {

    /** The carried value, or `default` when there is none. */
    function GetOr(default: T): T {
      match this
      case Some(v) => v
      case None => default
    }
  }
}
