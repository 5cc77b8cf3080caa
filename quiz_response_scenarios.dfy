/** Runs of the quiz-response service against its repository, as the quiz-response
    service tests describe them, stated for every table. */
module QuizResponseScenarios {
  import opened Outcomes
  import opened Paging
  import opened Storage
  import opened QuizResponseModel
  import opened QuizResponseRepositories
  import opened Ranking
  import QuizResponseServices

  /** `getForQuiz(quizId, username)` yields exactly that user's stored responses to that quiz. */
  method UserListing(service: QuizResponseServices.QuizResponseServiceImpl, quizId: string, username: string)
    returns (collected: Attempt<seq<QuizResponse>>)
    requires service.quizResponseRepository.table.fault.None?
    ensures collected.Returned?
    ensures forall r :: r in collected.value <==>
      r in service.quizResponseRepository.table.rows && r.quizId == quizId && r.username == username
  {
    var listing := service.GetForQuizByUser(quizId, username);
    var read := listing.Result();
    collected := Collect(read.value);
    forall r ensures r in collected.value <==>
      r in service.quizResponseRepository.table.rows && r.quizId == quizId && r.username == username
    {
      FindMembers(service.quizResponseRepository.table, Keep(QuizResponseFilter(quizId := Some(quizId), username := Some(username))), r);
    }
  }

  /** The highest-scores listing turned into a page of `size`: collected, it yields
      the first `size` entries of the quiz's ranking (all of them when there are
      fewer), that is the users with the highest totals, ties broken by username. */
  method TopScores(service: QuizResponseServices.QuizResponseServiceImpl, quizId: string, size: int)
    returns (collected: Attempt<seq<UserWithScore>>)
    requires size >= 1 && service.quizResponseRepository.table.fault.None?
    ensures collected.Returned?
    ensures
      var ranking := RankedTotals(Find(service.quizResponseRepository.table, Keep(ForQuiz(quizId)), Unpaged).value);
      collected.value == ranking[..if |ranking| < size then |ranking| else size]
    ensures StrictlyRanked(collected.value)
  {
    var ranking := service.GetHighestUserScores(quizId);
    var paged := ranking.WithSize(size);
    var read := paged.Result();
    collected := Collect(read.value);
  }

  /** `removeAllForQuiz` returns how many responses the quiz had, and afterwards
      counting the quiz gives 0. */
  method RemoveQuizThenCount(service: QuizResponseServices.QuizResponseServiceImpl, quizId: string)
    returns (removed: Result<int>, remaining: Result<int>)
    requires service.Valid() && service.quizResponseRepository.table.fault.None?
    modifies service.quizResponseRepository
    ensures removed == Success(CountBy(old(service.quizResponseRepository.table), ForQuiz(quizId)).value)
    ensures remaining == Success(0)
  {
    var gone := service.RemoveAllForQuiz(quizId);
    removed := gone.result;
    var count := service.CountResponsesForQuiz(quizId);
    remaining := count.result;
    DeleteByRemovesOnlyMatches(old(service.quizResponseRepository.table), ForQuiz(quizId));
  }

  /** `removeAllByUser(quizId, username)` removes that user's responses to that
      quiz, returns how many, and keeps every other response as often as before:
      the same user's responses to other quizzes and other users' responses. */
  method RemoveUserInQuiz(service: QuizResponseServices.QuizResponseServiceImpl, quizId: string, username: string)
    returns (removed: Result<int>)
    requires service.Valid() && service.quizResponseRepository.table.fault.None?
    modifies service.quizResponseRepository
    ensures removed == Success(CountBy(old(service.quizResponseRepository.table),
      QuizResponseFilter(quizId := Some(quizId), username := Some(username))).value)
    ensures forall r :: r in service.quizResponseRepository.table.rows ==> !(r.quizId == quizId && r.username == username)
    ensures forall r: QuizResponse :: !(r.quizId == quizId && r.username == username) ==>
      multiset(service.quizResponseRepository.table.rows)[r] == multiset(old(service.quizResponseRepository.table.rows))[r]
  {
    var filter := QuizResponseFilter(quizId := Some(quizId), username := Some(username));
    var gone := service.RemoveAllByUser(quizId, username);
    removed := gone.result;
    forall r | r in service.quizResponseRepository.table.rows ensures !(r.quizId == quizId && r.username == username) {
      WhereMembers(old(service.quizResponseRepository.table.rows), Not(Keep(filter)), r);
    }
    DeleteByRemovesOnlyMatches(old(service.quizResponseRepository.table), filter);
  }

  /** After `removeAllForQuestion`, no response to that question of that quiz is left. */
  method RemoveQuestionLeavesNone(service: QuizResponseServices.QuizResponseServiceImpl, quizId: string, questionNumber: int)
    returns (removed: Result<int>)
    requires service.Valid() && service.quizResponseRepository.table.fault.None?
    modifies service.quizResponseRepository
    ensures removed.Success?
    ensures forall r :: r in service.quizResponseRepository.table.rows ==>
      !(r.quizId == quizId && r.questionNumber == questionNumber)
  {
    var filter := QuizResponseFilter(quizId := Some(quizId), questionNumber := Some(questionNumber));
    var gone := service.RemoveAllForQuestion(quizId, questionNumber);
    removed := gone.result;
    forall r | r in service.quizResponseRepository.table.rows ensures !(r.quizId == quizId && r.questionNumber == questionNumber) {
      WhereMembers(old(service.quizResponseRepository.table.rows), Not(Keep(filter)), r);
    }
  }
}
