/**
 * Failure-carrying values shared by every module of the model: `Option` stands
 * for a nullable Java reference or an absent optional value, and `Result` for a
 * computation that either returns or throws an exception with a message.
 */
module Wrappers {

  datatype Option<+T> = None | Some(value: T) {
    function GetOr(default: T): T {
      match this
      case Some(v) => v
      case None => default
    }
  }

  datatype Result<+T> = Ok(value: T) | Err(message: string) {
    predicate IsFailure() {
      Err?
    }
  }
}
