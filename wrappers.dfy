/** Optional values, results and the ways a Java call of this system can end abnormally. */
module Wrappers {

  /** A Java reference that may be null. */
  datatype Option<+T> = None | Some(value: T)

  /** How a call ends when it does not return normally: each case is an exception the source lets escape. */
  datatype Fault =
    | StoreRejected     // the store answered with an error reply (bad expire time, INCR on a non-integer or at the limit)
    | LoaderFailed      // the database fallback threw
    | MalformedJson     // a cached string that does not parse as the expected JSON
    | BadNumber         // Long.valueOf / Long.parseLong on a string that is not a number
    | NullDereference   // a NullPointerException on a null the code dereferences
    | BadArgument       // an IllegalArgumentException raised by a library call
    | DateOutOfRange    // a date-time moved past the range LocalDateTime supports
    | RetriesExhausted  // the attempt bound of the mutex strategy ran out

  /** The outcome of a call: a value, or the exception it throws. */
  datatype Result<+T> = Success(value: T) | Failure(error: Fault)

  /** The outcome of a call that returns nothing. */
  datatype Outcome = Pass | Fail(error: Fault)

  /** The Result object every service method hands to its controller: ok with or without data, or a failure
      message for the client. */
  datatype Response<+T> = Ok(data: Option<T>) | Refused(errorMsg: string)

  /** A value returned by a service as ok with that value as its data; an exception passes through. */
  function OkWith<T>(r: Result<T>): Result<Response<T>> {
    match r
    case Success(v) => Success(Ok(Some(v)))
    case Failure(e) => Failure(e)
  }
}
