/** A scored response to a quiz question, and the per-user total the ranking query projects. */
module QuizResponseModel {
  import opened Outcomes

  /** A stored response row; `id` is null until storage assigns one. */
  datatype QuizResponse = QuizResponse(
    quizId: string,
    username: string,
    questionNumber: int,
    value: string,
    score: int,
    id: Option<int> := None)

  /** A user and the sum of their scores over a quiz. */
  datatype UserWithScore = UserWithScore(username: string, totalScore: int)
}
