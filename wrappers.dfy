/** Small value wrappers shared by the model: JavaScript's `null`/`undefined`
    become `None`, and an HTTP handler's reply becomes a `Response`. */
module Wrappers {

  datatype Option<+T> = None | Some(value: T) {
    function GetOr(default: T): T {
      match this
      case Some(v) => v
      case None => default
    }
  }

  /** What a route handler sends back: a 2xx status with a payload, or a
      4xx status with the handler's message. */
  datatype Response<+T> =
    | Success(code: nat, value: T)
    | Failure(code: nat, message: string)
}
