/** Failure-carrying values shared by every module of the model. */
module Wrappers {

  /** A value that may be absent: a missing request field, an unset form value, a failed lookup. */
  datatype Option<+T> = None | Some(value: T)
  {
    function GetOr(default: T): T
    {
      match this
      case Some(v) => v
      case None => default
    }

    /** This option when it holds a value, otherwise `other`. */
    function Or(other: Option<T>): Option<T>
    {
      if Some? then this else other
    }
  }

  /** The outcome of a check that either yields a value or refuses with a message. */
  datatype Result<+T> = Ok(value: T) | Err(message: string)
}
