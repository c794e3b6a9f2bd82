/**
 * What an operation can end in, and the requests it sent on the way. Each failure
 * stands for the exception the client throws.
 */
module Failures {
  import opened Opt
  import opened Http

  datatype Failure =
      /** The client's own exception: the response it carries (if any) and the message it was given (if any). */
    | Protocol(response: Option<Response>, message: Option<string>)
      /** `ArgumentException(message, paramName)`. */
    | InvalidArgument(argMessage: string, paramName: string)
      /** The `NullReferenceException` of dereferencing a missing `Location` header. */
    | NullLocation
      /** `DirectoryNotFoundException(message)`. */
    | DirectoryNotFound(notFoundMessage: string)

  datatype Outcome<+T> = Ok(value: T) | Err(failure: Failure)

  /** One operation's trace: the requests in the order they were sent, and how it ended. */
  datatype Run<+T> = Run(sent: seq<Request>, outcome: Outcome<T>)

  /** A protocol failure whose response has the given status. */
  predicate HasStatus(f: Failure, status: int) {
    f.Protocol? && f.response.Some? && f.response.value.status == status
  }

  /** The filter of the read accessors' catch clauses: a response is present and its status is 404. */
  predicate IsNotFound(f: Failure) {
    HasStatus(f, 404)
  }
}
