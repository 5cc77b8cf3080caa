/** The shape in which clients submit feedback, and its conversion to a stored row. */
module FeedbackDtos {
  import opened Outcomes
  import opened FeedbackModel

  datatype FeedbackDto = FeedbackDto(
    quizId: string,
    username: string,
    questionNumber: int,
    difficultyRating: DifficultyRating,
    message: Option<string>)

  /** `FeedbackDto.toModel()`: keeps every field, stores the rating as its value,
      and leaves the key unassigned. */
  function ToModel(dto: FeedbackDto): (feedback: Feedback)
    ensures feedback.quizId == dto.quizId && feedback.username == dto.username
    ensures feedback.questionNumber == dto.questionNumber && feedback.message == dto.message
    ensures 0 <= feedback.difficultyRating <= 3
    ensures FromValue(feedback.difficultyRating) == Returned(dto.difficultyRating)
    ensures feedback.id.None?
  {
    Feedback(dto.quizId, dto.username, dto.questionNumber, dto.difficultyRating.Value(), dto.message)
  }

  /** Nothing is lost in the conversion: two submissions give the same row exactly
      when they are the same submission. */
  lemma ToModelInjective(a: FeedbackDto, b: FeedbackDto)
    ensures ToModel(a) == ToModel(b) <==> a == b
  {
    if ToModel(a) == ToModel(b) {
      FromValueInvertsValue(a.difficultyRating);
      FromValueInvertsValue(b.difficultyRating);
    }
  }
}
