/** Shared result and error types used by every module of the model. */
module Common {

  datatype Option<+T> = None | Some(value: T)

  /** The HTTP status carried by the API errors that the services raise. */
  datatype Status = BadRequest | NotFound | Conflict | InternalServerError

  /** The outcome of a service call that either returns a value or raises an API error. */
  datatype Result<+T> = Ok(value: T) | Err(status: Status)

  /** The outcome of a service call that returns nothing on success. */
  datatype Outcome = Done | Failed(status: Status)
}
