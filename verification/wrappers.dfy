/** The optional-value datatype used for the source's optional fields
    (`placement?`, an absent `personalInfo.name`, a drop without destination). */
module Wrappers {

  datatype Option<+T> = None | Some(value: T) {

    /** The value, or `default` when there is none. */
    function GetOr(default: T): T {
      match this
      case Some(v) => v
      case None => default
    }
  }
}
