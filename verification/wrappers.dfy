/** Optional values and fallible results, used wherever the modelled code
    returns None / null or raises an exception. */
module Wrappers {

  datatype Option<+T> = None | Some(value: T) {
    predicate IsSome() {
      Some?
    }

    /** The held value, or `default` when there is none. */
    function GetOr(default: T): T {
      match this
      case Some(v) => v
      case None => default
    }
  }

  /** The exceptions the modelled code raises (or the error returns it logs). */
  datatype Error =
    | ValueError(msg: string)
    | VarError(msg: string)
    | IndexError(msg: string)
    | Fatal(msg: string)
    | TypeError(msg: string)
    | AttributeError(msg: string)
    | NameError(msg: string)

  datatype Result<+T> = Ok(value: T) | Err(error: Error) {
    predicate IsFailure() {
      Err?
    }
  }
}
