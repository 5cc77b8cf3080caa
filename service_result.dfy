/** The `Result` envelope every service call returns. A single envelope holds an
    outcome computed when it was built; an unpaged or paged envelope holds a
    producer and runs it on its first read, remembering the outcome from then on.
    A producer that throws yields a failure wrapping what it threw, and that
    failure is remembered like a success. */
module ServiceResult {
  import opened Outcomes
  import Paging

  /** An envelope whose result was computed when it was built. */
  class SingleServiceResult<T> {
    const result: Result<T>

    constructor (result: Result<T>)
      ensures this.result == result
    {
      this.result := result;
    }
  }

  /** `ServiceResult.single { … }`: the producer has already run (its outcome is
      `produced`); a throw becomes a failure wrapping the cause. */
  method Single<T>(produced: Attempt<T>) returns (single: SingleServiceResult<T>)
    ensures fresh(single)
    ensures single.result == Catch(produced)
  {
    single := new SingleServiceResult(Catch(produced));
  }

  /** An envelope that reads all values on its first read and can be turned into a paged one. */
  class UnpagedServiceResult<T> {
    const getResult: Paging.Pageable -> Attempt<T>
    var memo: Option<Result<T>>
    /** Every pageable this envelope has passed to `getResult`, in order. */
    ghost var calls: seq<Paging.Pageable>

    /** Not read yet: no outcome and no producer call. */
    ghost predicate Unread()
      reads this
    {
      memo.None? && calls == []
    }

    /** Read: the outcome of the one producer call, made with the unpaged request. */
    ghost predicate Read()
      reads this
    {
      memo == Some(Catch(getResult(Paging.Unpaged))) && calls == [Paging.Unpaged]
    }

    ghost predicate Valid()
      reads this
    {
      Unread() || Read()
    }

    constructor (getResult: Paging.Pageable -> Attempt<T>)
      ensures this.getResult == getResult
      ensures Unread()
    {
      this.getResult := getResult;
      memo := None;
      calls := [];
    }

    /** `result`: the first read calls the producer with `Pageable.unpaged()`; every
        later read returns the remembered outcome without calling it again. */
    method Result() returns (r: Result<T>)
      requires Valid()
      modifies this`memo, this`calls
      ensures Read()
      ensures r == Catch(getResult(Paging.Unpaged))
      ensures old(Read()) ==> calls == old(calls)
    {
      if memo.Some? {
        r := memo.value;
      } else {
        r := Catch(getResult(Paging.Unpaged));
        memo := Some(r);
        calls := calls + [Paging.Unpaged];
      }
    }

    /** `withSize(size)`: a new paged envelope on page 0 sharing the producer; this one is untouched. */
    method WithSize(size: int) returns (paged: PagedServiceResult<T>)
      ensures fresh(paged)
      ensures paged.size == size && paged.page == 0
      ensures paged.getResult == getResult
      ensures paged.Unread()
    {
      paged := new PagedServiceResult(size, 0, getResult);
    }
  }

  /** An envelope that reads one page of `size` values, page number `page`. */
  class PagedServiceResult<T> {
    var size: int
    var page: int
    const getResult: Paging.Pageable -> Attempt<T>
    var memo: Option<Result<T>>
    /** Every pageable this envelope has passed to `getResult`, in order. */
    ghost var calls: seq<Paging.Pageable>

    /** Not read yet: no outcome and no producer call. */
    ghost predicate Unread()
      reads this
    {
      memo.None? && calls == []
    }

    /** Read: at most one producer call was made, and the remembered outcome is
        either its caught outcome or the rejection of the page request. */
    ghost predicate Read()
      reads this
    {
      && memo.Some?
      && (calls == [] ==> memo.value == Failure(ServiceException(IllegalArgument)))
      && (|calls| == 1 ==> memo.value == Catch(getResult(calls[0])))
      && |calls| <= 1
    }

    ghost predicate Valid()
      reads this
    {
      Unread() || Read()
    }

    /** Built with the size and page given, without the setters' checks. */
    constructor (size: int, page: int, getResult: Paging.Pageable -> Attempt<T>)
      ensures this.size == size && this.page == page && this.getResult == getResult
      ensures Unread()
    {
      this.size := size;
      this.page := page;
      this.getResult := getResult;
      memo := None;
      calls := [];
    }

    /** The `size` setter: rejects a negative value and keeps the old size; accepts 0. */
    method SetSize(value: int) returns (accepted: Attempt<()>)
      modifies this`size
      ensures value < 0 ==> accepted == Threw(IllegalArgument) && size == old(size)
      ensures value >= 0 ==> accepted == Returned(()) && size == value
    {
      if value < 0 {
        accepted := Threw(IllegalArgument);
      } else {
        size := value;
        accepted := Returned(());
      }
    }

    /** The `size` setter as its message means it: rejects a size below 1 and keeps
        the old size, so an accepted size is one a page request can be built from. */
    method SetPositiveSize(value: int) returns (accepted: Attempt<()>)
      modifies this`size
      ensures value < 1 ==> accepted == Threw(IllegalArgument) && size == old(size)
      ensures value >= 1 ==> accepted == Returned(()) && size == value
    {
      if value < 1 {
        accepted := Threw(IllegalArgument);
      } else {
        size := value;
        accepted := Returned(());
      }
    }

    /** The `page` setter: rejects a negative value and keeps the old page; accepts 0. */
    method SetPage(value: int) returns (accepted: Attempt<()>)
      modifies this`page
      ensures value < 0 ==> accepted == Threw(IllegalArgument) && page == old(page)
      ensures value >= 0 ==> accepted == Returned(()) && page == value
    {
      if value < 0 {
        accepted := Threw(IllegalArgument);
      } else {
        page := value;
        accepted := Returned(());
      }
    }

    /** `result`: the first read builds `Pageable.ofSize(size).withPage(page)` and calls
        the producer with it, both inside the `try`, so a size below 1 or a negative
        page gives a failure and no producer call. Later reads return the remembered
        outcome, whatever `size` and `page` have become since. */
    method Result() returns (r: Result<T>)
      requires Valid()
      modifies this`memo, this`calls
      ensures Read() && memo == Some(r)
      ensures old(memo).Some? ==> r == old(memo).value && calls == old(calls)
      ensures old(memo).None? ==>
        match Paging.Request(size, page)
        case Threw(cause) => r == Failure(ServiceException(cause)) && calls == []
        case Returned(request) => r == Catch(getResult(request)) && calls == [request]
    {
      if memo.Some? {
        r := memo.value;
      } else {
        var request := Paging.Request(size, page);
        match request {
          case Threw(cause) =>
            r := Failure(ServiceException(cause));
          case Returned(pageable) =>
            r := Catch(getResult(pageable));
            calls := calls + [pageable];
        }
        memo := Some(r);
      }
    }

    /** `withPage(page)`: a new envelope with this one's current size and the given
        page, sharing the producer; this one is untouched. */
    method WithPage(page: int) returns (sibling: PagedServiceResult<T>)
      ensures fresh(sibling)
      ensures sibling.size == size && sibling.page == page
      ensures sibling.getResult == getResult
      ensures sibling.Unread()
    {
      sibling := new PagedServiceResult(size, page, getResult);
    }
  }

  /** `ServiceResult.unpaged(getResult)`. */
  method Unpaged<T>(getResult: Paging.Pageable -> Attempt<T>) returns (unpaged: UnpagedServiceResult<T>)
    ensures fresh(unpaged)
    ensures unpaged.getResult == getResult
    ensures unpaged.Unread()
  {
    unpaged := new UnpagedServiceResult(getResult);
  }

  /** `ServiceResult.withSize(size, getResult)`: a paged envelope on page 0. */
  method WithSize<T>(size: int, getResult: Paging.Pageable -> Attempt<T>) returns (paged: PagedServiceResult<T>)
    ensures fresh(paged)
    ensures paged.size == size && paged.page == 0
    ensures paged.getResult == getResult
    ensures paged.Unread()
  {
    paged := new PagedServiceResult(size, 0, getResult);
  }
}
