/** `FeedbackRepository`: the `feedback` table, the finders, counters and deleters
    Spring Data derives from method names, and the two average-rating queries. */
module FeedbackRepositories {
  import opened Outcomes
  import opened Paging
  import opened Storage
  import opened FeedbackModel

  type FeedbackRepository = CrudRepository<Feedback>

  /** The `@Id` column. */
  function IdOf(feedback: Feedback): Option<int> { feedback.id }

  function WithId(feedback: Feedback, id: int): Feedback { feedback.(id := Some(id)) }

  /** The table's standing invariant: keys assigned, unique and below `nextId`. */
  ghost predicate Valid(table: Table<Feedback>)
  {
    KeysAssigned(table, IdOf)
  }

  /** The conjunction a derived method name spells out, one equality test per field
      it names (`findByQuizIdAndDifficultyRatingIs` names `quizId` and
      `difficultyRating`); a field it does not name is not tested. */
  datatype FeedbackFilter = FeedbackFilter(
    quizId: Option<string> := None,
    username: Option<string> := None,
    questionNumber: Option<int> := None,
    difficultyRating: Option<int> := None)

  predicate Matches(filter: FeedbackFilter, feedback: Feedback)
  {
    && (filter.quizId.Some? ==> feedback.quizId == filter.quizId.value)
    && (filter.username.Some? ==> feedback.username == filter.username.value)
    && (filter.questionNumber.Some? ==> feedback.questionNumber == filter.questionNumber.value)
    && (filter.difficultyRating.Some? ==> feedback.difficultyRating == filter.difficultyRating.value)
  }

  function Keep(filter: FeedbackFilter): Feedback -> bool
  {
    feedback => Matches(filter, feedback)
  }

  /** A derived `findBy…(…, pageable)`: a cold flow bound to `repository`. Whenever
      it is collected it yields, unpaged, exactly the rows the filter keeps (and at
      most a page of them when paged), or throws the engine's failure. */
  function FindBy(repository: FeedbackRepository, filter: FeedbackFilter, pageable: Pageable): (flow: Flow<Feedback, Feedback>)
    ensures flow.source == repository
    ensures forall table :: flow.query(table).Returned? <==> table.fault.None?
    ensures forall table :: flow.query(table).Returned? ==>
      Lists(flow.query(table).value, table.rows, Keep(filter), pageable)
  {
    Flow(repository, (table: Table<Feedback>) => Find(table, Keep(filter), pageable))
  }

  /** A derived `countBy…`: how many rows match, 0 exactly when none does. */
  function CountBy(table: Table<Feedback>, filter: FeedbackFilter): (count: Attempt<int>)
    ensures count.Returned? <==> table.fault.None?
    ensures count.Returned? ==> count.value == |Find(table, Keep(filter), Unpaged).value|
    ensures count.Returned? ==> (count.value == 0 <==> forall f :: f in table.rows ==> !Matches(filter, f))
  {
    if table.fault.None? then
      assert (forall f :: f in table.rows ==> !Matches(filter, f)) ==> |Where(table.rows, Keep(filter))| == 0 by {
        if forall f :: f in table.rows ==> !Matches(filter, f) {
          NoneMatch(table.rows, Keep(filter));
        }
      }
      assert |Where(table.rows, Keep(filter))| == 0 ==> forall f :: f in table.rows ==> !Matches(filter, f) by {
        forall f | f in table.rows && |Where(table.rows, Keep(filter))| == 0 ensures !Matches(filter, f) {
          WhereMembers(table.rows, Keep(filter), f);
        }
      }
      Count(table, Keep(filter))
    else
      Count(table, Keep(filter))
  }

  function Rating(feedback: Feedback): int { feedback.difficultyRating }

  /** `getAverageDifficultyRating(quizId)` (filter on `quizId`) and
      `getAverageDifficultyRatingForQuestionNumber(quizId, questionNumber)` (filter on
      both): the sum of matching ratings divided by the number of matching rows, or
      by 1 when there are none (so 0). */
  function AverageRating(table: Table<Feedback>, filter: FeedbackFilter): (mean: Attempt<real>)
    ensures mean.Returned? <==> table.fault.None?
    ensures mean.Returned? && CountBy(table, filter).value == 0 ==> mean.value == 0.0
    ensures mean.Returned? && CountBy(table, filter).value > 0 ==>
      mean.value * CountBy(table, filter).value as real == SumOf(Find(table, Keep(filter), Unpaged).value, Rating) as real
  {
    var matching := Where(table.rows, Keep(filter));
    assert table.fault.None? ==> CountBy(table, filter).value == |matching|;
    assert table.fault.None? ==> Find(table, Keep(filter), Unpaged).value == matching;
    if table.fault.Some? then Threw(table.fault.value) else Returned(Average(matching, Rating))
  }

  /** Ratings that are all rating values (0..3) average to a value in 0..3. */
  lemma AverageRatingInScale(table: Table<Feedback>, filter: FeedbackFilter)
    requires table.fault.None?
    requires forall f :: f in table.rows ==> 0 <= f.difficultyRating <= 3
    ensures 0.0 <= AverageRating(table, filter).value <= 3.0
  {
    var matching := Where(table.rows, Keep(filter));
    forall i | 0 <= i < |matching| ensures 0 <= Rating(matching[i]) <= 3 {
      WhereMembers(table.rows, Keep(filter), matching[i]);
    }
    AverageBounds(matching, Rating, 0, 3);
  }

  /** `save(feedback)`. */
  method Save(repository: FeedbackRepository, feedback: Feedback) returns (saved: Attempt<Feedback>)
    requires Valid(repository.table)
    modifies repository
    ensures Valid(repository.table)
    ensures old(repository.table.fault).Some? ==>
      saved == Threw(old(repository.table.fault.value)) && repository.table == old(repository.table)
    ensures old(repository.table.fault).None? && feedback.id.None? ==>
      && saved == Returned(feedback.(id := Some(old(repository.table.nextId))))
      && repository.table.rows == old(repository.table.rows) + [saved.value]
      && repository.table.nextId == old(repository.table.nextId) + 1
      && repository.table.fault.None?
  {
    saved := repository.Save(feedback, IdOf, WithId);
  }

  /** A derived `deleteBy…`: removes exactly the matching rows, keeps every other
      row, and returns how many it removed. */
  method DeleteBy(repository: FeedbackRepository, filter: FeedbackFilter) returns (removed: Attempt<int>)
    requires Valid(repository.table)
    modifies repository
    ensures Valid(repository.table)
    ensures old(repository.table.fault).Some? ==>
      removed == Threw(old(repository.table.fault.value)) && repository.table == old(repository.table)
    ensures old(repository.table.fault).None? ==>
      && removed == CountBy(old(repository.table), filter)
      && repository.table == old(repository.table).(rows := Where(old(repository.table.rows), Not(Keep(filter))))
  {
    removed := repository.DeleteWhere(Keep(filter));
    RemovalKeepsKeys(old(repository.table), Not(Keep(filter)), IdOf);
  }

  /** After a `deleteBy…` nothing matches, and every other row is still stored as often as before. */
  lemma DeleteByRemovesOnlyMatches(before: Table<Feedback>, filter: FeedbackFilter)
    requires before.fault.None?
    ensures CountBy(before.(rows := Where(before.rows, Not(Keep(filter)))), filter) == Returned(0)
    ensures forall f :: !Matches(filter, f) ==>
      multiset(Where(before.rows, Not(Keep(filter))))[f] == multiset(before.rows)[f]
  {
    WhereAfterRemoval(before.rows, Keep(filter));
    forall f | !Matches(filter, f)
      ensures multiset(Where(before.rows, Not(Keep(filter))))[f] == multiset(before.rows)[f]
    {
      assert Not(Keep(filter))(f) == !Matches(filter, f);
    }
  }
}
