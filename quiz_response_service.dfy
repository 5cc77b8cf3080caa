/** `QuizResponseServiceImpl`: each operation makes one repository call, and wraps
    it in a deferred unpaged envelope (listings and the ranking) or an eager single
    envelope (the rest). */
module QuizResponseServices {
  import opened Outcomes
  import opened Paging
  import opened Storage
  import opened QuizResponseModel
  import opened QuizResponseDtos
  import opened QuizResponseRepositories
  import ServiceResult

  type ResponseListing = ServiceResult.UnpagedServiceResult<Flow<QuizResponse, QuizResponse>>
  type ScoreListing = ServiceResult.UnpagedServiceResult<Flow<QuizResponse, UserWithScore>>

  class QuizResponseServiceImpl {
    const quizResponseRepository: QuizResponseRepository

    constructor (quizResponseRepository: QuizResponseRepository)
      ensures this.quizResponseRepository == quizResponseRepository
    {
      this.quizResponseRepository := quizResponseRepository;
    }

    ghost predicate Valid()
      reads this, quizResponseRepository
    {
      QuizResponseRepositories.Valid(quizResponseRepository.table)
    }

    /** `listing` is unread and its producer hands back the finder's flow for `filter`
        on this service's repository, with whatever pageable it is given. */
    ghost predicate Delegates(listing: ResponseListing, filter: QuizResponseFilter)
      reads listing
    {
      && listing.Unread()
      && forall pageable :: listing.getResult(pageable) == Returned(FindBy(quizResponseRepository, filter, pageable))
    }

    method Listing(filter: QuizResponseFilter) returns (listing: ResponseListing)
      ensures fresh(listing) && Delegates(listing, filter)
    {
      var repository := quizResponseRepository;
      listing := ServiceResult.Unpaged((pageable: Pageable) => Returned(FindBy(repository, filter, pageable)));
    }

    /** `getForQuiz(quizId)`. */
    method GetForQuiz(quizId: string) returns (listing: ResponseListing)
      ensures fresh(listing) && Delegates(listing, QuizResponseFilter(quizId := Some(quizId)))
    {
      listing := Listing(QuizResponseFilter(quizId := Some(quizId)));
    }

    /** `getForQuiz(quizId, username)`. */
    method GetForQuizByUser(quizId: string, username: string) returns (listing: ResponseListing)
      ensures fresh(listing) && Delegates(listing, QuizResponseFilter(quizId := Some(quizId), username := Some(username)))
    {
      listing := Listing(QuizResponseFilter(quizId := Some(quizId), username := Some(username)));
    }

    /** `getAllForQuestion(quizId, questionNumber)`. */
    method GetAllForQuestion(quizId: string, questionNumber: int) returns (listing: ResponseListing)
      ensures fresh(listing)
      ensures Delegates(listing, QuizResponseFilter(quizId := Some(quizId), questionNumber := Some(questionNumber)))
    {
      listing := Listing(QuizResponseFilter(quizId := Some(quizId), questionNumber := Some(questionNumber)));
    }

    /** `getForQuestionByUser(quizId, questionNumber, username)`: the response or null. */
    method GetForQuestionByUser(quizId: string, questionNumber: int, username: string)
      returns (found: ServiceResult.SingleServiceResult<Option<QuizResponse>>)
      ensures fresh(found)
      ensures found.result == Catch(FindOneBy(quizResponseRepository.table, quizId, questionNumber, username))
    {
      found := ServiceResult.Single(FindOneBy(quizResponseRepository.table, quizId, questionNumber, username));
    }

    /** `countResponsesForQuiz(quizId)`. */
    method CountResponsesForQuiz(quizId: string) returns (count: ServiceResult.SingleServiceResult<int>)
      ensures fresh(count)
      ensures count.result == Catch(CountBy(quizResponseRepository.table, QuizResponseFilter(quizId := Some(quizId))))
    {
      count := ServiceResult.Single(CountBy(quizResponseRepository.table, QuizResponseFilter(quizId := Some(quizId))));
    }

    /** `countResponsesForQuestion(quizId, questionNumber)`. */
    method CountResponsesForQuestion(quizId: string, questionNumber: int) returns (count: ServiceResult.SingleServiceResult<int>)
      ensures fresh(count)
      ensures count.result == Catch(CountBy(quizResponseRepository.table,
        QuizResponseFilter(quizId := Some(quizId), questionNumber := Some(questionNumber))))
    {
      count := ServiceResult.Single(CountBy(quizResponseRepository.table,
        QuizResponseFilter(quizId := Some(quizId), questionNumber := Some(questionNumber))));
    }

    /** `countResponsesForQuestion(quizId, questionNumber, value)`. */
    method CountResponsesForQuestionWithValue(quizId: string, questionNumber: int, value: string)
      returns (count: ServiceResult.SingleServiceResult<int>)
      ensures fresh(count)
      ensures count.result == Catch(CountBy(quizResponseRepository.table,
        QuizResponseFilter(quizId := Some(quizId), questionNumber := Some(questionNumber), value := Some(value))))
    {
      count := ServiceResult.Single(CountBy(quizResponseRepository.table,
        QuizResponseFilter(quizId := Some(quizId), questionNumber := Some(questionNumber), value := Some(value))));
    }

    /** `getHighestUserScores(quizId)`: unread, and its producer hands back the
        ranking flow for the quiz with whatever pageable it is given, so it can be
        turned into a paged envelope with `WithSize`. */
    method GetHighestUserScores(quizId: string) returns (ranking: ScoreListing)
      ensures fresh(ranking) && ranking.Unread()
      ensures forall pageable ::
                ranking.getResult(pageable) == Returned(TotalScoresByQuizIdDesc(quizResponseRepository, quizId, pageable))
    {
      var repository := quizResponseRepository;
      ranking := ServiceResult.Unpaged((pageable: Pageable) => Returned(TotalScoresByQuizIdDesc(repository, quizId, pageable)));
    }

    /** `getTotalQuizScoreForUser(quizId, username)`. */
    method GetTotalQuizScoreForUser(quizId: string, username: string) returns (total: ServiceResult.SingleServiceResult<int>)
      ensures fresh(total)
      ensures total.result == Catch(TotalScoreFor(quizResponseRepository.table, quizId, username))
    {
      total := ServiceResult.Single(TotalScoreFor(quizResponseRepository.table, quizId, username));
    }

    /** `getAverageScoreForQuestion(quizId, questionNumber)`. */
    method GetAverageScoreForQuestion(quizId: string, questionNumber: int) returns (mean: ServiceResult.SingleServiceResult<real>)
      ensures fresh(mean)
      ensures mean.result == Catch(AverageScore(quizResponseRepository.table,
        QuizResponseFilter(quizId := Some(quizId), questionNumber := Some(questionNumber))))
    {
      mean := ServiceResult.Single(AverageScore(quizResponseRepository.table,
        QuizResponseFilter(quizId := Some(quizId), questionNumber := Some(questionNumber))));
    }

    /** `getAverageScoreForUser(quizId, username)`. */
    method GetAverageScoreForUser(quizId: string, username: string) returns (mean: ServiceResult.SingleServiceResult<real>)
      ensures fresh(mean)
      ensures mean.result == Catch(AverageScore(quizResponseRepository.table,
        QuizResponseFilter(quizId := Some(quizId), username := Some(username))))
    {
      mean := ServiceResult.Single(AverageScore(quizResponseRepository.table,
        QuizResponseFilter(quizId := Some(quizId), username := Some(username))));
    }

    /** `save(responseDto)`: stores `responseDto.toModel()` under a new key and returns the stored row. */
    method Save(responseDto: QuizResponseDto) returns (saved: ServiceResult.SingleServiceResult<QuizResponse>)
      requires Valid()
      modifies quizResponseRepository
      ensures Valid() && fresh(saved)
      ensures old(quizResponseRepository.table.fault).Some? ==>
        && saved.result == Failure(ServiceException(old(quizResponseRepository.table.fault.value)))
        && quizResponseRepository.table == old(quizResponseRepository.table)
      ensures old(quizResponseRepository.table.fault).None? ==>
        && saved.result == Success(ToModel(responseDto).(id := Some(old(quizResponseRepository.table.nextId))))
        && quizResponseRepository.table.rows == old(quizResponseRepository.table.rows) + [saved.result.value]
        && quizResponseRepository.table.nextId == old(quizResponseRepository.table.nextId) + 1
        && quizResponseRepository.table.fault.None?
    {
      var stored := QuizResponseRepositories.Save(quizResponseRepository, ToModel(responseDto));
      saved := ServiceResult.Single(stored);
    }

    method Remove(filter: QuizResponseFilter) returns (removed: ServiceResult.SingleServiceResult<int>)
      requires Valid()
      modifies quizResponseRepository
      ensures Valid() && fresh(removed)
      ensures removed.result == Catch(CountBy(old(quizResponseRepository.table), filter))
      ensures old(quizResponseRepository.table.fault).Some? ==> quizResponseRepository.table == old(quizResponseRepository.table)
      ensures old(quizResponseRepository.table.fault).None? ==>
        quizResponseRepository.table ==
          old(quizResponseRepository.table).(rows := Where(old(quizResponseRepository.table.rows), Not(Keep(filter))))
    {
      var count := DeleteBy(quizResponseRepository, filter);
      removed := ServiceResult.Single(count);
    }

    /** `removeAllForQuiz(quizId)`. */
    method RemoveAllForQuiz(quizId: string) returns (removed: ServiceResult.SingleServiceResult<int>)
      requires Valid()
      modifies quizResponseRepository
      ensures Valid() && fresh(removed)
      ensures removed.result == Catch(CountBy(old(quizResponseRepository.table), QuizResponseFilter(quizId := Some(quizId))))
      ensures old(quizResponseRepository.table.fault).Some? ==> quizResponseRepository.table == old(quizResponseRepository.table)
      ensures old(quizResponseRepository.table.fault).None? ==>
        quizResponseRepository.table == old(quizResponseRepository.table).(rows :=
          Where(old(quizResponseRepository.table.rows), Not(Keep(QuizResponseFilter(quizId := Some(quizId))))))
    {
      removed := Remove(QuizResponseFilter(quizId := Some(quizId)));
    }

    /** `removeAllByUser(quizId, username)`: only that user's responses in that quiz. */
    method RemoveAllByUser(quizId: string, username: string) returns (removed: ServiceResult.SingleServiceResult<int>)
      requires Valid()
      modifies quizResponseRepository
      ensures Valid() && fresh(removed)
      ensures removed.result == Catch(CountBy(old(quizResponseRepository.table),
        QuizResponseFilter(quizId := Some(quizId), username := Some(username))))
      ensures old(quizResponseRepository.table.fault).Some? ==> quizResponseRepository.table == old(quizResponseRepository.table)
      ensures old(quizResponseRepository.table.fault).None? ==>
        quizResponseRepository.table == old(quizResponseRepository.table).(rows :=
          Where(old(quizResponseRepository.table.rows), Not(Keep(QuizResponseFilter(quizId := Some(quizId), username := Some(username))))))
    {
      removed := Remove(QuizResponseFilter(quizId := Some(quizId), username := Some(username)));
    }

    /** `removeAllForQuestion(quizId, questionNumber)`. */
    method RemoveAllForQuestion(quizId: string, questionNumber: int) returns (removed: ServiceResult.SingleServiceResult<int>)
      requires Valid()
      modifies quizResponseRepository
      ensures Valid() && fresh(removed)
      ensures removed.result == Catch(CountBy(old(quizResponseRepository.table),
        QuizResponseFilter(quizId := Some(quizId), questionNumber := Some(questionNumber))))
      ensures old(quizResponseRepository.table.fault).Some? ==> quizResponseRepository.table == old(quizResponseRepository.table)
      ensures old(quizResponseRepository.table.fault).None? ==>
        quizResponseRepository.table == old(quizResponseRepository.table).(rows :=
          Where(old(quizResponseRepository.table.rows),
            Not(Keep(QuizResponseFilter(quizId := Some(quizId), questionNumber := Some(questionNumber))))))
    {
      removed := Remove(QuizResponseFilter(quizId := Some(quizId), questionNumber := Some(questionNumber)));
    }
  }
}
