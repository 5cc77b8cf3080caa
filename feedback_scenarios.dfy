/** Runs of the feedback service against its repository, as the feedback
    service tests describe them, stated for every table. */
module FeedbackScenarios {
  import opened Outcomes
  import opened Paging
  import opened Storage
  import opened FeedbackModel
  import opened FeedbackDtos
  import opened FeedbackRepositories
  import FeedbackServices

  /** `getForQuiz(quizId, rating)` yields exactly the stored feedback of that quiz
      whose rating is `rating`'s value. */
  method RatingListing(service: FeedbackServices.FeedbackServiceImpl, quizId: string, rating: DifficultyRating)
    returns (collected: Attempt<seq<Feedback>>)
    requires service.feedbackRepository.table.fault.None?
    ensures collected.Returned?
    ensures forall f :: f in collected.value <==>
      f in service.feedbackRepository.table.rows && f.quizId == quizId && f.difficultyRating == rating.Value()
  {
    var listing := service.GetForQuizWithRating(quizId, rating);
    var read := listing.Result();
    collected := Collect(read.value);
    forall f ensures f in collected.value <==>
      f in service.feedbackRepository.table.rows && f.quizId == quizId && f.difficultyRating == rating.Value()
    {
      FindMembers(service.feedbackRepository.table, Keep(FeedbackFilter(quizId := Some(quizId), difficultyRating := Some(rating.Value()))), f);
    }
  }

  /** `getForQuizQuestion(quizId, questionNumber, username)` yields exactly the
      stored feedback matching all three. */
  method QuestionByUserListing(service: FeedbackServices.FeedbackServiceImpl, quizId: string, questionNumber: int, username: string)
    returns (collected: Attempt<seq<Feedback>>)
    requires service.feedbackRepository.table.fault.None?
    ensures collected.Returned?
    ensures forall f :: f in collected.value <==>
      f in service.feedbackRepository.table.rows && f.quizId == quizId && f.questionNumber == questionNumber && f.username == username
  {
    var listing := service.GetForQuizQuestionByUser(quizId, questionNumber, username);
    var read := listing.Result();
    collected := Collect(read.value);
    forall f ensures f in collected.value <==>
      f in service.feedbackRepository.table.rows && f.quizId == quizId && f.questionNumber == questionNumber && f.username == username
    {
      FindMembers(service.feedbackRepository.table,
        Keep(FeedbackFilter(quizId := Some(quizId), questionNumber := Some(questionNumber), username := Some(username))), f);
    }
  }

  /** A listing is a cold flow: feedback saved after the listing was read but before
      it is collected is part of what the collection yields. */
  method ListingSeesLaterSave(service: FeedbackServices.FeedbackServiceImpl, dto: FeedbackDto)
    returns (saved: Result<Feedback>, collected: Attempt<seq<Feedback>>)
    requires service.Valid() && service.feedbackRepository.table.fault.None?
    modifies service.feedbackRepository
    ensures saved == Success(ToModel(dto).(id := Some(old(service.feedbackRepository.table.nextId))))
    ensures collected.Returned?
    ensures saved.value in collected.value
    ensures forall f :: f in old(service.feedbackRepository.table.rows) && f.quizId == dto.quizId ==> f in collected.value
  {
    var listing := service.GetForQuiz(dto.quizId);
    var flow := listing.Result();
    var stored := service.Save(dto);
    saved := stored.result;
    var filter := FeedbackFilter(quizId := Some(dto.quizId));
    collected := Collect(flow.value);
    assert collected == Find(service.feedbackRepository.table, Keep(filter), Unpaged);
    FindMembers(service.feedbackRepository.table, Keep(filter), saved.value);
    forall f | f in old(service.feedbackRepository.table.rows) && f.quizId == dto.quizId
      ensures f in collected.value
    {
      FindMembers(service.feedbackRepository.table, Keep(filter), f);
    }
  }

  /** A storage failure does not reach a listing's envelope, which reads as a
      success; it is thrown when the flow is collected. */
  method ListingFailureAtCollection(service: FeedbackServices.FeedbackServiceImpl, quizId: string)
    returns (read: Result<Flow<Feedback, Feedback>>, collected: Attempt<seq<Feedback>>)
    requires service.feedbackRepository.table.fault.Some?
    ensures read.Success?
    ensures collected == Threw(service.feedbackRepository.table.fault.value)
  {
    var listing := service.GetForQuiz(quizId);
    read := listing.Result();
    collected := Collect(read.value);
  }

  /** `removeAllForQuiz` returns how many rows the quiz had, and afterwards the
      quiz has none while every other quiz keeps its rows. */
  method RemoveQuizThenCount(service: FeedbackServices.FeedbackServiceImpl, quizId: string)
    returns (removed: Result<int>, remaining: Result<int>)
    requires service.Valid() && service.feedbackRepository.table.fault.None?
    modifies service.feedbackRepository
    ensures removed == Success(CountBy(old(service.feedbackRepository.table), FeedbackFilter(quizId := Some(quizId))).value)
    ensures remaining == Success(0)
    ensures forall f :: f in old(service.feedbackRepository.table.rows) && f.quizId != quizId ==>
      f in service.feedbackRepository.table.rows
  {
    var filter := FeedbackFilter(quizId := Some(quizId));
    var gone := service.RemoveAllForQuiz(quizId);
    removed := gone.result;
    var count := service.CountFeedbackForQuiz(quizId);
    remaining := count.result;
    DeleteByRemovesOnlyMatches(old(service.feedbackRepository.table), filter);
    forall f | f in old(service.feedbackRepository.table.rows) && f.quizId != quizId
      ensures f in service.feedbackRepository.table.rows
    {
      assert !Matches(filter, f);
    }
  }
}
