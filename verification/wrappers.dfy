/** A value that may be absent: a spreadsheet cell that pandas reads as NaN,
    a join side with no match, a salary that does not parse. */
module Wrappers {

  datatype Option<+T> = None | Some(value: T) {

    /** The value, or `default` when absent. */
    function GetOr(default: T): T {
      match this
      case Some(v) => v
      case None => default
    }
  }
}
