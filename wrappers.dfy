/** Option and Result: the model's stand-ins for Python's None and for raised exceptions. */
module Wrappers {

  datatype Option<+T> = None | Some(value: T) {
    function GetOr(default: T): T {
      match this
      case Some(v) => v
      case None => default
    }
  }

  /** `Raises` stands for an exception that escapes the modelled call. */
  datatype Result<+T> = Ok(value: T) | Raises(reason: string)
}
