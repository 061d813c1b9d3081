/** Failure-compatible option type used for the JavaScript `null` results of the model. */
module Wrappers {

  /** `None` stands for the `null` (or `undefined`) a JavaScript helper returns. */
  datatype Option<+T> = None | Some(value: T) {

    /** Returns the value in `Some`, or `default` for `None` (JavaScript's `x || default`
        when every `Some` value is truthy). */
    function GetOr(default: T): T {
      match this
      case Some(v) => v
      case None => default
    }
  }
}
