/** A submitted piece of feedback on a quiz question, and the difficulty scale it uses. */
module FeedbackModel {
  import opened Outcomes

  /** A stored feedback row. `difficultyRating` is the integer value of a
      `DifficultyRating`; `id` is null until storage assigns one. */
  datatype Feedback = Feedback(
    quizId: string,
    username: string,
    questionNumber: int,
    difficultyRating: int,
    message: Option<string>,
    id: Option<int> := None)

  /** How hard a user found a question, from easiest to hardest. */
  datatype DifficultyRating = EASY | DIFFICULT | CHALLENGING | IMPOSSIBLE
  {
    /** The integer stored for this rating. */
    function Value(): (value: int)
      ensures 0 <= value <= 3
    {
      match this
      case EASY => 0
      case DIFFICULT => 1
      case CHALLENGING => 2
      case IMPOSSIBLE => 3
    }
  }

  /** `DifficultyRating.fromValue`: the rating stored as `value`; any value outside
      0..3 throws IllegalArgumentException. */
  function FromValue(value: int): (rating: Attempt<DifficultyRating>)
    ensures rating.Returned? <==> 0 <= value <= 3
    ensures rating.Returned? ==> rating.value.Value() == value
    ensures rating.Threw? ==> rating.cause == IllegalArgument
  {
    match value
    case 0 => Returned(EASY)
    case 1 => Returned(DIFFICULT)
    case 2 => Returned(CHALLENGING)
    case 3 => Returned(IMPOSSIBLE)
    case _ => Threw(IllegalArgument)
  }

  /** Reading back a stored rating gives the rating that was stored. */
  lemma FromValueInvertsValue(rating: DifficultyRating)
    ensures FromValue(rating.Value()) == Returned(rating)
  {
  }

  /** Values ascend with difficulty: a harder rating stores a larger value, so
      distinct ratings store distinct values. */
  lemma ValueAscendsWithDifficulty()
    ensures EASY.Value() == 0
    ensures EASY.Value() < DIFFICULT.Value() < CHALLENGING.Value() < IMPOSSIBLE.Value() == 3
  {
  }
}
