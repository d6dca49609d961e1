/** An optional value: stands for JavaScript's `undefined` (an absent prop) or a supplied one. */
module Wrappers {

  datatype Option<+T> = None | Some(value: T) {

    /** The supplied value, or `default` when there is none (`x !== undefined ? x : default`). */
    function GetOr(default: T): T {
      match this
      case Some(v) => v
      case None => default
    }
  }
}
