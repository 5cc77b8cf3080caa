/** The shape in which clients submit a response, and its conversion to a stored row. */
module QuizResponseDtos {
  import opened Outcomes
  import opened QuizResponseModel

  datatype QuizResponseDto = QuizResponseDto(
    quizId: string,
    username: string,
    questionNumber: int,
    value: string,
    score: int)

  /** `QuizResponseDto.toModel()`: keeps every field as given, with no range check
      on the score, and leaves the key unassigned. */
  function ToModel(dto: QuizResponseDto): (response: QuizResponse)
    ensures response.quizId == dto.quizId && response.username == dto.username
    ensures response.questionNumber == dto.questionNumber
    ensures response.value == dto.value && response.score == dto.score
    ensures response.id.None?
  {
    QuizResponse(dto.quizId, dto.username, dto.questionNumber, dto.value, dto.score)
  }

  /** Two submissions give the same row exactly when they are field-for-field equal. */
  lemma ToModelInjective(a: QuizResponseDto, b: QuizResponseDto)
    ensures ToModel(a) == ToModel(b) <==> a == b
  {
  }
}
