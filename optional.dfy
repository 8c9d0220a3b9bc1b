/** Values that may be absent: a missing request field, a SQL NULL, or a lookup that found no row. */
module Optional {

  datatype Option<+T> = None | Some(value: T) {

    /** The value, or `default` when absent: JavaScript's `x = default` destructuring for a missing field. */
    function GetOr(default: T): T {
      match this
      case Some(v) => v
      case None => default
    }
  }
}
