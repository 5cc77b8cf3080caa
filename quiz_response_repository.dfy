/** `QuizResponseRepository`: the `response` table, its derived finders, counters
    and deleters, the single-row lookup, and the score queries. */
module QuizResponseRepositories {
  import opened Outcomes
  import opened Paging
  import opened Storage
  import opened QuizResponseModel
  import opened Ranking

  type QuizResponseRepository = CrudRepository<QuizResponse>

  /** The `@Id` column. */
  function IdOf(response: QuizResponse): Option<int> { response.id }

  function WithId(response: QuizResponse, id: int): QuizResponse { response.(id := Some(id)) }

  /** The table's standing invariant: keys assigned, unique and below `nextId`. */
  ghost predicate Valid(table: Table<QuizResponse>)
  {
    KeysAssigned(table, IdOf)
  }

  /** The conjunction a derived method name spells out, one equality test per field
      it names (`countByQuizIdAndQuestionNumberAndValueIs` names `quizId`,
      `questionNumber` and `value`); a field it does not name is not tested. */
  datatype QuizResponseFilter = QuizResponseFilter(
    quizId: Option<string> := None,
    username: Option<string> := None,
    questionNumber: Option<int> := None,
    value: Option<string> := None)

  predicate Matches(filter: QuizResponseFilter, response: QuizResponse)
  {
    && (filter.quizId.Some? ==> response.quizId == filter.quizId.value)
    && (filter.username.Some? ==> response.username == filter.username.value)
    && (filter.questionNumber.Some? ==> response.questionNumber == filter.questionNumber.value)
    && (filter.value.Some? ==> response.value == filter.value.value)
  }

  function Keep(filter: QuizResponseFilter): QuizResponse -> bool
  {
    response => Matches(filter, response)
  }

  function ForQuiz(quizId: string): QuizResponseFilter
  {
    QuizResponseFilter(quizId := Some(quizId))
  }

  /** A derived `findBy…(…, pageable)`: a cold flow bound to `repository`. Whenever
      it is collected it yields, unpaged, exactly the rows the filter keeps (and at
      most a page of them when paged), or throws the engine's failure. */
  function FindBy(repository: QuizResponseRepository, filter: QuizResponseFilter, pageable: Pageable): (flow: Flow<QuizResponse, QuizResponse>)
    ensures flow.source == repository
    ensures forall table :: flow.query(table).Returned? <==> table.fault.None?
    ensures forall table :: flow.query(table).Returned? ==>
      Lists(flow.query(table).value, table.rows, Keep(filter), pageable)
  {
    Flow(repository, (table: Table<QuizResponse>) => Find(table, Keep(filter), pageable))
  }

  /** The filter `findByQuizIdAndQuestionNumberAndUsername` spells out. */
  function QuestionByUser(quizId: string, questionNumber: int, username: string): QuizResponseFilter
  {
    QuizResponseFilter(quizId := Some(quizId), username := Some(username), questionNumber := Some(questionNumber))
  }

  /** `findByQuizIdAndQuestionNumberAndUsername`: null when no response to that
      question by that user is stored, that response when one is, and a failure
      carrying the number of matches when several are. */
  function FindOneBy(table: Table<QuizResponse>, quizId: string, questionNumber: int, username: string): (found: Attempt<Option<QuizResponse>>)
    ensures found.Returned? <==> table.fault.None? && CountBy(table, QuestionByUser(quizId, questionNumber, username)).value <= 1
    ensures found.Returned? && found.value.Some? ==>
      && found.value.value in table.rows
      && found.value.value.quizId == quizId
      && found.value.value.questionNumber == questionNumber
      && found.value.value.username == username
    ensures table.fault.None? ==>
      (found == Returned(None) <==>
        forall r :: r in table.rows ==> !(r.quizId == quizId && r.questionNumber == questionNumber && r.username == username))
    ensures table.fault.None? && CountBy(table, QuestionByUser(quizId, questionNumber, username)).value == 1 ==>
      found.Returned? && found.value.Some?
    ensures table.fault.None? && CountBy(table, QuestionByUser(quizId, questionNumber, username)).value > 1 ==>
      found == Threw(IncorrectResultSize(CountBy(table, QuestionByUser(quizId, questionNumber, username)).value))
    ensures table.fault.Some? ==> found == Threw(table.fault.value)
  {
    FindOne(table, Keep(QuestionByUser(quizId, questionNumber, username)))
  }

  /** With exactly one matching response stored, the lookup returns it. */
  lemma FindOneByFindsOnlyMatch(table: Table<QuizResponse>, i: nat)
    requires table.fault.None? && i < |table.rows|
    requires forall j :: 0 <= j < |table.rows| && j != i ==>
      !(table.rows[j].quizId == table.rows[i].quizId && table.rows[j].questionNumber == table.rows[i].questionNumber
        && table.rows[j].username == table.rows[i].username)
    ensures
      var r := table.rows[i];
      FindOneBy(table, r.quizId, r.questionNumber, r.username) == Returned(Some(r))
  {
    var r := table.rows[i];
    WhereOfOnlyMatch(table.rows, Keep(QuestionByUser(r.quizId, r.questionNumber, r.username)), i);
  }

  /** A derived `countBy…`: how many rows match, 0 exactly when none does. */
  function CountBy(table: Table<QuizResponse>, filter: QuizResponseFilter): (count: Attempt<int>)
    ensures count.Returned? <==> table.fault.None?
    ensures count.Returned? ==> count.value == |Find(table, Keep(filter), Unpaged).value|
    ensures count.Returned? ==> (count.value == 0 <==> forall r :: r in table.rows ==> !Matches(filter, r))
  {
    if table.fault.None? then
      assert (forall r :: r in table.rows ==> !Matches(filter, r)) ==> |Where(table.rows, Keep(filter))| == 0 by {
        if forall r :: r in table.rows ==> !Matches(filter, r) {
          NoneMatch(table.rows, Keep(filter));
        }
      }
      assert |Where(table.rows, Keep(filter))| == 0 ==> forall r :: r in table.rows ==> !Matches(filter, r) by {
        forall r | r in table.rows && |Where(table.rows, Keep(filter))| == 0 ensures !Matches(filter, r) {
          WhereMembers(table.rows, Keep(filter), r);
        }
      }
      Count(table, Keep(filter))
    else
      Count(table, Keep(filter))
  }

  /** `getTotalScoresByQuizIdDesc(quizId, pageable)`: a cold flow bound to
      `repository`. Collected unpaged it yields the ranking of the quiz's
      responses; paged, a run of at most a page of that ranking, still in order. */
  function TotalScoresByQuizIdDesc(repository: QuizResponseRepository, quizId: string, pageable: Pageable): (flow: Flow<QuizResponse, UserWithScore>)
    ensures flow.source == repository
    ensures forall table :: flow.query(table).Returned? <==> table.fault.None?
    ensures forall table :: flow.query(table).Returned? && pageable.Unpaged? ==>
      IsRanking(flow.query(table).value, Find(table, Keep(ForQuiz(quizId)), Unpaged).value)
    ensures forall table :: flow.query(table).Returned? && pageable.PageRequest? ==>
      && flow.query(table).value == Window(RankedTotals(Find(table, Keep(ForQuiz(quizId)), Unpaged).value),
                                           pageable.Offset(), pageable.pageSize)
      && StrictlyRanked(flow.query(table).value)
      && |flow.query(table).value| <= pageable.pageSize
      && multiset(flow.query(table).value) <= multiset(RankedTotals(Find(table, Keep(ForQuiz(quizId)), Unpaged).value))
  {
    Flow(repository, (table: Table<QuizResponse>) => RankedQuery(table, quizId, pageable))
  }

  /** The statement a ranking flow runs. */
  function RankedQuery(table: Table<QuizResponse>, quizId: string, pageable: Pageable): (ranked: Attempt<seq<UserWithScore>>)
    ensures ranked.Returned? <==> table.fault.None?
    ensures ranked.Returned? && pageable.Unpaged? ==> IsRanking(ranked.value, Where(table.rows, Keep(ForQuiz(quizId))))
    ensures ranked.Returned? && pageable.PageRequest? ==>
      && ranked.value == Window(RankedTotals(Where(table.rows, Keep(ForQuiz(quizId)))),
                                pageable.Offset(), pageable.pageSize)
      && StrictlyRanked(ranked.value)
      && |ranked.value| <= pageable.pageSize
      && multiset(ranked.value) <= multiset(RankedTotals(Where(table.rows, Keep(ForQuiz(quizId)))))
  {
    if table.fault.Some? then Threw(table.fault.value)
    else
      var ranking := RankedTotals(Where(table.rows, Keep(ForQuiz(quizId))));
      PageKeepsRank(ranking, pageable);
      Returned(PageOf(ranking, pageable))
  }

  /** A page of a ranking is ranked. */
  lemma PageKeepsRank(ranking: seq<UserWithScore>, pageable: Pageable)
    requires StrictlyRanked(ranking)
    ensures StrictlyRanked(PageOf(ranking, pageable))
  {
    var before := (x: UserWithScore, y: UserWithScore) => RanksBefore(x, y);
    PageKeepsOrder(ranking, pageable, before);
    var page := PageOf(ranking, pageable);
    forall i, j | 0 <= i < j < |page| ensures RanksBefore(page[i], page[j]) {
      assert before(page[i], page[j]);
    }
  }

  /** `getTotalScoreByQuizIdAndUsername`: the sum of that user's scores in the quiz, 0 when there are none. */
  function TotalScoreFor(table: Table<QuizResponse>, quizId: string, username: string): (total: Attempt<int>)
    ensures total.Returned? <==> table.fault.None?
    ensures total.Returned? ==> total.value == TotalScore(Find(table, Keep(ForQuiz(quizId)), Unpaged).value, username)
  {
    if table.fault.Some? then Threw(table.fault.value)
    else
      UserRowsOfQuiz(table.rows, quizId, username);
      assert Find(table, Keep(ForQuiz(quizId)), Unpaged).value == Where(table.rows, Keep(ForQuiz(quizId)));
      Returned(SumOf(Where(table.rows, Keep(QuizResponseFilter(quizId := Some(quizId), username := Some(username)))), Score))
  }

  /** A user's responses within a quiz's responses are the responses matching both. */
  lemma UserRowsOfQuiz(rows: seq<QuizResponse>, quizId: string, username: string)
    ensures Where(Where(rows, Keep(ForQuiz(quizId))), ByUsername(username))
         == Where(rows, Keep(QuizResponseFilter(quizId := Some(quizId), username := Some(username))))
  {
    var both := Keep(QuizResponseFilter(quizId := Some(quizId), username := Some(username)));
    forall x ensures both(x) == (Keep(ForQuiz(quizId))(x) && ByUsername(username)(x)) {
    }
    WhereOfWhere(rows, Keep(ForQuiz(quizId)), ByUsername(username), both);
  }

  /** A user's total is the total the ranking reports for them, and 0 for a user
      without responses in the quiz. */
  lemma TotalScoreForAgreesWithRanking(table: Table<QuizResponse>, quizId: string, username: string)
    requires table.fault.None?
    ensures forall e :: e in RankedTotals(Where(table.rows, Keep(ForQuiz(quizId)))) && e.username == username ==>
      TotalScoreFor(table, quizId, username).value == e.totalScore
    ensures username !in UsersOf(Where(table.rows, Keep(ForQuiz(quizId)))) ==> TotalScoreFor(table, quizId, username).value == 0
  {
    var quizRows := Where(table.rows, Keep(ForQuiz(quizId)));
    if username !in UsersOf(quizRows) {
      forall j | 0 <= j < |quizRows| ensures !ByUsername(username)(quizRows[j]) {
        assert quizRows[j] in quizRows;
      }
      NoneMatch(quizRows, ByUsername(username));
    }
  }

  /** `getAverageScoreByQuizIdAndQuestionNumber` (filter on quiz and question) and
      `getAverageScoreByQuizIdAndUsername` (filter on quiz and user): the sum of
      matching scores divided by the number of matching rows, or by 1 when there
      are none (so 0). */
  function AverageScore(table: Table<QuizResponse>, filter: QuizResponseFilter): (mean: Attempt<real>)
    ensures mean.Returned? <==> table.fault.None?
    ensures mean.Returned? && CountBy(table, filter).value == 0 ==> mean.value == 0.0
    ensures mean.Returned? && CountBy(table, filter).value > 0 ==>
      mean.value * CountBy(table, filter).value as real == SumOf(Find(table, Keep(filter), Unpaged).value, Score) as real
  {
    var matching := Where(table.rows, Keep(filter));
    assert table.fault.None? ==> CountBy(table, filter).value == |matching|;
    assert table.fault.None? ==> Find(table, Keep(filter), Unpaged).value == matching;
    if table.fault.Some? then Threw(table.fault.value) else Returned(Average(matching, Score))
  }

  /** Three users answer question 0 of quiz Q1 with scores 4, 6 and 10: the
      question averages 20/3, and question 1, without responses, averages 0. */
  lemma AverageScoreExample(table: Table<QuizResponse>)
    requires table == Table([
      QuizResponse("Q1", "ann", 0, "a", 4, Some(1)),
      QuizResponse("Q1", "ben", 0, "b", 6, Some(2)),
      QuizResponse("Q1", "cid", 0, "c", 10, Some(3))], 4, None)
    ensures AverageScore(table, QuizResponseFilter(quizId := Some("Q1"), questionNumber := Some(0))) == Returned(20.0 / 3.0)
    ensures AverageScore(table, QuizResponseFilter(quizId := Some("Q1"), questionNumber := Some(1))) == Returned(0.0)
  {
    ExampleQuestionAverage(table.rows, QuizResponseFilter(quizId := Some("Q1"), questionNumber := Some(0)));
    var question1 := QuizResponseFilter(quizId := Some("Q1"), questionNumber := Some(1));
    NoneMatch(table.rows, Keep(question1));
  }

  /** A filter that keeps all three example rows averages their scores to 20/3. */
  lemma ExampleQuestionAverage(rows: seq<QuizResponse>, filter: QuizResponseFilter)
    requires |rows| == 3 && rows[0].score == 4 && rows[1].score == 6 && rows[2].score == 10
    requires Matches(filter, rows[0]) && Matches(filter, rows[1]) && Matches(filter, rows[2])
    ensures Average(Where(rows, Keep(filter)), Score) == 20.0 / 3.0
  {
    forall j | 0 <= j < |rows| ensures Keep(filter)(rows[j]) {
      assert j == 0 || j == 1 || j == 2;
    }
    AllMatch(rows, Keep(filter));
    ExampleScoresSum(rows);
  }

  lemma ExampleScoresSum(rows: seq<QuizResponse>)
    requires |rows| == 3 && rows[0].score == 4 && rows[1].score == 6 && rows[2].score == 10
    ensures SumOf(rows, Score) == 20
    ensures Average(rows, Score) == 20.0 / 3.0
  {
    assert SumOf(rows[2..], Score) == 10 by {
      assert rows[2..][1..] == [];
    }
    assert rows[1..][1..] == rows[2..];
  }

  /** `save(response)`. */
  method Save(repository: QuizResponseRepository, response: QuizResponse) returns (saved: Attempt<QuizResponse>)
    requires Valid(repository.table)
    modifies repository
    ensures Valid(repository.table)
    ensures old(repository.table.fault).Some? ==>
      saved == Threw(old(repository.table.fault.value)) && repository.table == old(repository.table)
    ensures old(repository.table.fault).None? && response.id.None? ==>
      && saved == Returned(response.(id := Some(old(repository.table.nextId))))
      && repository.table.rows == old(repository.table.rows) + [saved.value]
      && repository.table.nextId == old(repository.table.nextId) + 1
      && repository.table.fault.None?
  {
    saved := repository.Save(response, IdOf, WithId);
  }

  /** A derived `deleteBy…`: removes exactly the matching rows, keeps every other
      row, and returns how many it removed. */
  method DeleteBy(repository: QuizResponseRepository, filter: QuizResponseFilter) returns (removed: Attempt<int>)
    requires Valid(repository.table)
    modifies repository
    ensures Valid(repository.table)
    ensures old(repository.table.fault).Some? ==>
      removed == Threw(old(repository.table.fault.value)) && repository.table == old(repository.table)
    ensures old(repository.table.fault).None? ==>
      && removed == CountBy(old(repository.table), filter)
      && repository.table == old(repository.table).(rows := Where(old(repository.table.rows), Not(Keep(filter))))
  {
    removed := repository.DeleteWhere(Keep(filter));
    RemovalKeepsKeys(old(repository.table), Not(Keep(filter)), IdOf);
  }

  /** After a `deleteBy…` nothing matches, and every other row is still stored as often as before. */
  lemma DeleteByRemovesOnlyMatches(before: Table<QuizResponse>, filter: QuizResponseFilter)
    requires before.fault.None?
    ensures CountBy(before.(rows := Where(before.rows, Not(Keep(filter)))), filter) == Returned(0)
    ensures forall r :: !Matches(filter, r) ==>
      multiset(Where(before.rows, Not(Keep(filter))))[r] == multiset(before.rows)[r]
  {
    WhereAfterRemoval(before.rows, Keep(filter));
    forall r | !Matches(filter, r)
      ensures multiset(Where(before.rows, Not(Keep(filter))))[r] == multiset(before.rows)[r]
    {
      assert Not(Keep(filter))(r) == !Matches(filter, r);
    }
  }
}
