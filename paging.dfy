/** Spring's `Pageable`, reduced to what this core passes to storage. */
module Paging {
  import opened Outcomes

  /** Page sizes Spring accepts. */
  type PageSize = n: int | n >= 1 witness 1

  /** `Pageable.unpaged()`, or a `PageRequest` for page `pageNumber` of `pageSize` rows. */
  datatype Pageable = Unpaged | PageRequest(pageSize: PageSize, pageNumber: nat)
  {
    /** `Pageable.getOffset()`: the number of rows before the page. */
    function Offset(): nat
      requires PageRequest?
    {
      pageNumber * pageSize
    }
  }

  /** `Pageable.ofSize(size).withPage(page)`: `ofSize` rejects a size below 1, then
      `withPage` rejects a negative page number, both with IllegalArgumentException. */
  function Request(size: int, page: int): (request: Attempt<Pageable>)
    ensures request.Returned? <==> size >= 1 && page >= 0
    ensures request.Returned? ==> request.value.PageRequest?
    ensures request.Returned? ==> request.value.pageSize == size && request.value.pageNumber == page
    ensures request.Threw? ==> request.cause == IllegalArgument
  {
    if size < 1 then Threw(IllegalArgument)
    else if page < 0 then Threw(IllegalArgument)
    else Returned(PageRequest(size, page))
  }
}
