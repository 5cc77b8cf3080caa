/** Values that say how a call ended: what a producer returned or threw, and the
    `Result` a service hands back after translating exceptions. */
module Outcomes {

  /** A nullable value (`T?`). */
  datatype Option<+T> = None | Some(value: T)

  /** The exceptions this core raises or meets. */
  datatype Cause =
    | IllegalArgument                  // a rejected argument: page size or number, rating value
    | IncorrectResultSize(actual: nat) // a single-row lookup matched more than one row
    | RowNotFound(id: int)             // an update of a record whose id no row has
    | DataAccess(detail: string)       // any other failure of the storage engine

  /** What running a piece of code did: returned a value or threw. */
  datatype Attempt<+T> = Returned(value: T) | Threw(cause: Cause)

  /** The exception every failure of a service call is wrapped in. */
  datatype ServiceException = ServiceException(cause: Cause)

  /** Kotlin's `Result<T>` as the services use it: a value, or a `ServiceException`. */
  datatype Result<+T> = Success(value: T) | Failure(exception: ServiceException)

  /** `try { Result.success(f()) } catch (e: Exception) { Result.failure(ServiceException(e)) }`:
      the thrown cause is kept, wrapped, and nothing else is lost. */
  function Catch<T>(attempt: Attempt<T>): (result: Result<T>)
    ensures result.Success? <==> attempt.Returned?
    ensures result.Success? ==> result.value == attempt.value
    ensures result.Failure? ==> result.exception == ServiceException(attempt.cause)
  {
    match attempt
    case Returned(v) => Success(v)
    case Threw(cause) => Failure(ServiceException(cause))
  }
}
