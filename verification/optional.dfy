/** A request-body field that may be absent. JavaScript's `undefined` and `null`
    both read as `None` here: the handlers treat them alike. */
module Optional {

  datatype Option<+T> = None | Some(value: T) {

    /** The field's value, or `default` when the field is absent. */
    function GetOr(default: T): T {
      match this
      case Some(v) => v
      case None => default
    }
  }
}
