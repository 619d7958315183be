/** Values that may be missing: a response header that was not sent, a request
    without a body. */
module Wrappers {

  datatype Option<+T> = None | Some(value: T) {

    /** JavaScript's `x || fallback` applied to a value that may be null: the held
        value when there is one, `fallback` otherwise. */
    function GetOr(fallback: T): T {
      if Some? then value else fallback
    }
  }
}
