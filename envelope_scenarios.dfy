/** Runs of the result envelopes that the envelope tests describe, stated for
    every size and page rather than for one random draw. */
module EnvelopeScenarios {
  import opened Outcomes
  import opened Paging
  import ServiceResult

  /** A producer that hands back the pageable it was called with. */
  function Echo(pageable: Pageable): Attempt<Pageable> { Returned(pageable) }

  /** A producer that throws `IllegalArgumentException`. */
  function Throwing(pageable: Pageable): Attempt<int> { Threw(IllegalArgument) }

  /** A single envelope over a throwing producer holds a failure. */
  method SingleOfThrowing() returns (r: Result<int>)
    ensures r == Failure(ServiceException(IllegalArgument))
  {
    var single := ServiceResult.Single(Throwing(Unpaged));
    r := single.result;
  }

  /** An unpaged envelope over a throwing producer reads as a failure. */
  method UnpagedOfThrowing() returns (r: Result<int>)
    ensures r == Failure(ServiceException(IllegalArgument))
  {
    var unpaged := ServiceResult.Unpaged(Throwing);
    r := unpaged.Result();
  }

  /** A paged envelope over a throwing producer reads as a failure, whatever its size. */
  method WithSizeOfThrowing(size: int) returns (r: Result<int>)
    ensures r.Failure?
    ensures size >= 1 ==> r == Failure(ServiceException(IllegalArgument))
  {
    var paged := ServiceResult.WithSize(size, Throwing);
    r := paged.Result();
  }

  /** `unpaged { … }.withSize(size)` calls the producer with page 0 of `size`; a size
      below 1 is refused when the envelope is read, and the producer is not called. */
  method UnpagedWithSizeRequest(size: int) returns (r: Result<Pageable>)
    ensures size >= 1 ==> r == Success(PageRequest(size, 0))
    ensures size < 1 ==> r == Failure(ServiceException(IllegalArgument))
  {
    var unpaged := ServiceResult.Unpaged(Echo);
    var paged := unpaged.WithSize(size);
    r := paged.Result();
  }

  /** `withSize(size) { … }` calls the producer with page 0 of `size`. */
  method WithSizeRequest(size: int) returns (r: Result<Pageable>)
    ensures size >= 1 ==> r == Success(PageRequest(size, 0))
    ensures size < 1 ==> r == Failure(ServiceException(IllegalArgument))
  {
    var paged := ServiceResult.WithSize(size, Echo);
    r := paged.Result();
  }

  /** `withSize(size) { … }.withPage(page)` calls the producer with page `page` of `size`. */
  method WithSizeWithPageRequest(size: int, page: int) returns (r: Result<Pageable>)
    ensures size >= 1 && page >= 0 ==> r == Success(PageRequest(size, page))
    ensures !(size >= 1 && page >= 0) ==> r == Failure(ServiceException(IllegalArgument))
  {
    var paged := ServiceResult.WithSize(size, Echo);
    var sibling := paged.WithPage(page);
    r := sibling.Result();
  }

  /** Once read, a paged envelope keeps its outcome: changing its size afterwards
      does not change what a later read returns. */
  method ResizeAfterRead(size: int, newSize: int) returns (first: Result<Pageable>, second: Result<Pageable>)
    requires size >= 1
    ensures first == Success(PageRequest(size, 0))
    ensures second == first
  {
    var paged := ServiceResult.WithSize(size, Echo);
    first := paged.Result();
    var _ := paged.SetSize(newSize);
    second := paged.Result();
  }

  /** The `size` setter as written accepts 0, which no page request can be built
      from: the envelope then reads as a failure without calling its producer. */
  method ZeroSizeAccepted() returns (accepted: Attempt<()>, r: Result<Pageable>)
    ensures accepted == Returned(())
    ensures r == Failure(ServiceException(IllegalArgument))
  {
    var paged := ServiceResult.WithSize(1, Echo);
    accepted := paged.SetSize(0);
    r := paged.Result();
  }

  /** With the corrected setter, an envelope built with a valid size stays readable
      whatever size it is later given: an accepted size is used, a rejected one
      leaves the old size in place. */
  method ResizedEnvelopeReads(size: int, newSize: int) returns (r: Result<Pageable>)
    requires size >= 1
    ensures newSize >= 1 ==> r == Success(PageRequest(newSize, 0))
    ensures newSize < 1 ==> r == Success(PageRequest(size, 0))
  {
    var paged := ServiceResult.WithSize(size, Echo);
    var _ := paged.SetPositiveSize(newSize);
    r := paged.Result();
  }
}
