/** The optional value used for every "may be absent" field of the model:
    a missing telemetry field, an unset GPS origin, an empty scan result. */
module Wrappers {

  datatype Option<+T> = None | Some(value: T) {

    /** The held value, or `default` when there is none. */
    function GetOr(default: T): T {
      match this
      case Some(v) => v
      case None => default
    }
  }
}
