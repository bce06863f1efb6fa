/** Option and the outcome of an awaited call that may throw. */
module Wrappers {

  datatype Option<+T> = None | Some(value: T)

  /** What an awaited JavaScript call produced: a value, or an Error with its message. */
  datatype Outcome<+T> = Ok(value: T) | Thrown(message: string)

  /**
   * The settled result of `await fetch(...)` followed by reading the body:
   * either the request itself rejected (network failure, bad URL), or a
   * response arrived with a status code and a body that was or was not readable.
   */
  datatype Fetched<+T> = Rejected(message: string) | Answered(status: nat, body: Outcome<T>)

  /** `Response.ok`: the status is in the range 200-299. */
  predicate IsOkStatus(status: nat)
  {
    200 <= status <= 299
  }
}
