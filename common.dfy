/** Small helpers shared by every module of the model. */
module Common {

  /** A value that may be missing: JavaScript's `null` or `undefined` on one side, a value on the other. */
  datatype Option<+T> = None | Some(value: T) {

    /** The contained value, or `default` when there is none (JavaScript's `x ?? default`). */
    function GetOr(default: T): T {
      match this
      case Some(v) => v
      case None => default
    }
  }
}
