/** `FeedbackServiceImpl`: each operation makes one repository call, and wraps it in
    a deferred unpaged envelope (listings) or an eager single envelope (the rest). */
module FeedbackServices {
  import opened Outcomes
  import opened Paging
  import opened Storage
  import opened FeedbackModel
  import opened FeedbackDtos
  import opened FeedbackRepositories
  import ServiceResult

  type FeedbackListing = ServiceResult.UnpagedServiceResult<Flow<Feedback, Feedback>>

  class FeedbackServiceImpl {
    const feedbackRepository: FeedbackRepository

    constructor (feedbackRepository: FeedbackRepository)
      ensures this.feedbackRepository == feedbackRepository
    {
      this.feedbackRepository := feedbackRepository;
    }

    ghost predicate Valid()
      reads this, feedbackRepository
    {
      FeedbackRepositories.Valid(feedbackRepository.table)
    }

    /** `listing` is unread and its producer hands back the finder's flow for `filter`
        on this service's repository, with whatever pageable it is given. */
    ghost predicate Delegates(listing: FeedbackListing, filter: FeedbackFilter)
      reads listing
    {
      && listing.Unread()
      && forall pageable :: listing.getResult(pageable) == Returned(FindBy(feedbackRepository, filter, pageable))
    }

    method Listing(filter: FeedbackFilter) returns (listing: FeedbackListing)
      ensures fresh(listing) && Delegates(listing, filter)
    {
      var repository := feedbackRepository;
      listing := ServiceResult.Unpaged((pageable: Pageable) => Returned(FindBy(repository, filter, pageable)));
    }

    /** `getForQuiz(quizId)`. */
    method GetForQuiz(quizId: string) returns (listing: FeedbackListing)
      ensures fresh(listing) && Delegates(listing, FeedbackFilter(quizId := Some(quizId)))
    {
      listing := Listing(FeedbackFilter(quizId := Some(quizId)));
    }

    /** `getForQuiz(quizId, username)`. */
    method GetForQuizByUser(quizId: string, username: string) returns (listing: FeedbackListing)
      ensures fresh(listing) && Delegates(listing, FeedbackFilter(quizId := Some(quizId), username := Some(username)))
    {
      listing := Listing(FeedbackFilter(quizId := Some(quizId), username := Some(username)));
    }

    /** `getForQuiz(quizId, difficultyRating)`: filters on the rating's stored value. */
    method GetForQuizWithRating(quizId: string, difficultyRating: DifficultyRating) returns (listing: FeedbackListing)
      ensures fresh(listing)
      ensures Delegates(listing, FeedbackFilter(quizId := Some(quizId), difficultyRating := Some(difficultyRating.Value())))
    {
      listing := Listing(FeedbackFilter(quizId := Some(quizId), difficultyRating := Some(difficultyRating.Value())));
    }

    /** `getForQuizQuestion(quizId, questionNumber)`. */
    method GetForQuizQuestion(quizId: string, questionNumber: int) returns (listing: FeedbackListing)
      ensures fresh(listing)
      ensures Delegates(listing, FeedbackFilter(quizId := Some(quizId), questionNumber := Some(questionNumber)))
    {
      listing := Listing(FeedbackFilter(quizId := Some(quizId), questionNumber := Some(questionNumber)));
    }

    /** `getForQuizQuestion(quizId, questionNumber, username)`. */
    method GetForQuizQuestionByUser(quizId: string, questionNumber: int, username: string) returns (listing: FeedbackListing)
      ensures fresh(listing)
      ensures Delegates(listing,
        FeedbackFilter(quizId := Some(quizId), questionNumber := Some(questionNumber), username := Some(username)))
    {
      listing := Listing(FeedbackFilter(quizId := Some(quizId), questionNumber := Some(questionNumber), username := Some(username)));
    }

    /** `getForQuizQuestion(quizId, questionNumber, difficultyRating)`. */
    method GetForQuizQuestionWithRating(quizId: string, questionNumber: int, difficultyRating: DifficultyRating)
      returns (listing: FeedbackListing)
      ensures fresh(listing)
      ensures Delegates(listing,
        FeedbackFilter(quizId := Some(quizId), questionNumber := Some(questionNumber), difficultyRating := Some(difficultyRating.Value())))
    {
      listing := Listing(FeedbackFilter(quizId := Some(quizId), questionNumber := Some(questionNumber),
        difficultyRating := Some(difficultyRating.Value())));
    }

    /** `countFeedbackForQuiz(quizId)`. */
    method CountFeedbackForQuiz(quizId: string) returns (count: ServiceResult.SingleServiceResult<int>)
      ensures fresh(count)
      ensures count.result == Catch(CountBy(feedbackRepository.table, FeedbackFilter(quizId := Some(quizId))))
    {
      count := ServiceResult.Single(CountBy(feedbackRepository.table, FeedbackFilter(quizId := Some(quizId))));
    }

    /** `countFeedbackForQuiz(quizId, difficultyRating)`. */
    method CountFeedbackForQuizWithRating(quizId: string, difficultyRating: DifficultyRating)
      returns (count: ServiceResult.SingleServiceResult<int>)
      ensures fresh(count)
      ensures count.result == Catch(CountBy(feedbackRepository.table,
        FeedbackFilter(quizId := Some(quizId), difficultyRating := Some(difficultyRating.Value()))))
    {
      count := ServiceResult.Single(CountBy(feedbackRepository.table,
        FeedbackFilter(quizId := Some(quizId), difficultyRating := Some(difficultyRating.Value()))));
    }

    /** `countFeedbackForUser(username)`: across every quiz. */
    method CountFeedbackForUser(username: string) returns (count: ServiceResult.SingleServiceResult<int>)
      ensures fresh(count)
      ensures count.result == Catch(CountBy(feedbackRepository.table, FeedbackFilter(username := Some(username))))
    {
      count := ServiceResult.Single(CountBy(feedbackRepository.table, FeedbackFilter(username := Some(username))));
    }

    /** `getAverageDifficultyRating(quizId)`. */
    method GetAverageDifficultyRating(quizId: string) returns (mean: ServiceResult.SingleServiceResult<real>)
      ensures fresh(mean)
      ensures mean.result == Catch(AverageRating(feedbackRepository.table, FeedbackFilter(quizId := Some(quizId))))
    {
      mean := ServiceResult.Single(AverageRating(feedbackRepository.table, FeedbackFilter(quizId := Some(quizId))));
    }

    /** `getAverageDifficultyRatingForQuestion(quizId, questionNumber)`. */
    method GetAverageDifficultyRatingForQuestion(quizId: string, questionNumber: int)
      returns (mean: ServiceResult.SingleServiceResult<real>)
      ensures fresh(mean)
      ensures mean.result == Catch(AverageRating(feedbackRepository.table,
        FeedbackFilter(quizId := Some(quizId), questionNumber := Some(questionNumber))))
    {
      mean := ServiceResult.Single(AverageRating(feedbackRepository.table,
        FeedbackFilter(quizId := Some(quizId), questionNumber := Some(questionNumber))));
    }

    /** `save(feedback)`: stores `feedback.toModel()` under a new key and returns the stored row. */
    method Save(feedback: FeedbackDto) returns (saved: ServiceResult.SingleServiceResult<Feedback>)
      requires Valid()
      modifies feedbackRepository
      ensures Valid() && fresh(saved)
      ensures old(feedbackRepository.table.fault).Some? ==>
        && saved.result == Failure(ServiceException(old(feedbackRepository.table.fault.value)))
        && feedbackRepository.table == old(feedbackRepository.table)
      ensures old(feedbackRepository.table.fault).None? ==>
        && saved.result == Success(ToModel(feedback).(id := Some(old(feedbackRepository.table.nextId))))
        && feedbackRepository.table.rows == old(feedbackRepository.table.rows) + [saved.result.value]
        && feedbackRepository.table.nextId == old(feedbackRepository.table.nextId) + 1
        && feedbackRepository.table.fault.None?
    {
      var stored := FeedbackRepositories.Save(feedbackRepository, ToModel(feedback));
      saved := ServiceResult.Single(stored);
    }

    method Remove(filter: FeedbackFilter) returns (removed: ServiceResult.SingleServiceResult<int>)
      requires Valid()
      modifies feedbackRepository
      ensures Valid() && fresh(removed)
      ensures removed.result == Catch(CountBy(old(feedbackRepository.table), filter))
      ensures old(feedbackRepository.table.fault).Some? ==> feedbackRepository.table == old(feedbackRepository.table)
      ensures old(feedbackRepository.table.fault).None? ==>
        feedbackRepository.table == old(feedbackRepository.table).(rows := Where(old(feedbackRepository.table.rows), Not(Keep(filter))))
    {
      var count := DeleteBy(feedbackRepository, filter);
      removed := ServiceResult.Single(count);
    }

    /** `removeAllForQuiz(quizId)`: deletes the quiz's feedback and returns how many rows that was. */
    method RemoveAllForQuiz(quizId: string) returns (removed: ServiceResult.SingleServiceResult<int>)
      requires Valid()
      modifies feedbackRepository
      ensures Valid() && fresh(removed)
      ensures removed.result == Catch(CountBy(old(feedbackRepository.table), FeedbackFilter(quizId := Some(quizId))))
      ensures old(feedbackRepository.table.fault).Some? ==> feedbackRepository.table == old(feedbackRepository.table)
      ensures old(feedbackRepository.table.fault).None? ==>
        feedbackRepository.table == old(feedbackRepository.table).(rows :=
          Where(old(feedbackRepository.table.rows), Not(Keep(FeedbackFilter(quizId := Some(quizId))))))
    {
      removed := Remove(FeedbackFilter(quizId := Some(quizId)));
    }

    /** `removeAllByUser(username)`: deletes the user's feedback in every quiz. */
    method RemoveAllByUser(username: string) returns (removed: ServiceResult.SingleServiceResult<int>)
      requires Valid()
      modifies feedbackRepository
      ensures Valid() && fresh(removed)
      ensures removed.result == Catch(CountBy(old(feedbackRepository.table), FeedbackFilter(username := Some(username))))
      ensures old(feedbackRepository.table.fault).Some? ==> feedbackRepository.table == old(feedbackRepository.table)
      ensures old(feedbackRepository.table.fault).None? ==>
        feedbackRepository.table == old(feedbackRepository.table).(rows :=
          Where(old(feedbackRepository.table.rows), Not(Keep(FeedbackFilter(username := Some(username))))))
    {
      removed := Remove(FeedbackFilter(username := Some(username)));
    }

    /** `removeAllForQuizQuestion(quizId, questionNumber)`. */
    method RemoveAllForQuizQuestion(quizId: string, questionNumber: int) returns (removed: ServiceResult.SingleServiceResult<int>)
      requires Valid()
      modifies feedbackRepository
      ensures Valid() && fresh(removed)
      ensures removed.result == Catch(CountBy(old(feedbackRepository.table),
        FeedbackFilter(quizId := Some(quizId), questionNumber := Some(questionNumber))))
      ensures old(feedbackRepository.table.fault).Some? ==> feedbackRepository.table == old(feedbackRepository.table)
      ensures old(feedbackRepository.table.fault).None? ==>
        feedbackRepository.table == old(feedbackRepository.table).(rows :=
          Where(old(feedbackRepository.table.rows), Not(Keep(FeedbackFilter(quizId := Some(quizId), questionNumber := Some(questionNumber))))))
    {
      removed := Remove(FeedbackFilter(quizId := Some(quizId), questionNumber := Some(questionNumber)));
    }
  }
}
