/** Optional values, and the outcome of one awaited call to the REST API. */
module Wrappers {

  /** A value that may be absent (JavaScript `null`, `undefined` or a falsy field). */
  datatype Option<+T> = None | Some(value: T) {
    function GetOr(default: T): T {
      match this
      case Some(v) => v
      case None => default
    }
  }
}

module Api {

  /** What a rejected request carries: `err.message`, and the validation
      messages `err.response.data.errors[*].msg` when the server sent them. */
  datatype ApiError = ApiError(message: string, fieldErrors: FieldErrors)

  datatype FieldErrors = NoFieldErrors | FieldErrors(messages: seq<string>)

  /** The result of awaiting one API call: it resolves with a value or rejects.
      Which of the two happens is chosen by the server, so every handler takes
      it as an input. */
  datatype Outcome<+T> = Success(value: T) | Failure(error: ApiError)
}
