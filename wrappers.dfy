/** The optional value used wherever the source returns "nothing" or reads a missing field. */
module Wrappers {

  datatype Option<+T> = None | Some(value: T) {

    /** The value held, or the given default when there is none (the `x || []` idiom of the source). */
    function GetOr(default: T): (r: T)
      ensures Some? ==> r == value
      ensures None? ==> r == default
    {
      match this
      case Some(v) => v
      case None => default
    }
  }
}
