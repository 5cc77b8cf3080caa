# livequiz-feedback in Dafny

A model of the service layer of livequiz-feedback. This Spring/Kotlin service stores
feedback and scored responses for live quizzes and answers questions about them: listings,
counts, totals, averages, a ranking of users by total score, saves and removals.
Every service operation returns its outcome inside a `ServiceResult` envelope.

The model has four layers. Each has a module, one file per source file.

- **Result envelope** (`service_result.dfy`, `outcomes.dfy`, `paging.dfy`).
  - `single` builds an envelope around an outcome already computed.
  - `unpaged` and `withSize` build envelopes that call their producer on the first read,
    with `Pageable.unpaged()` or with page `page` of `size`, and then remember the outcome.
  - Any exception from the producer, or from building the page request, becomes
    a failure wrapping it in a `ServiceException`, remembered like a success.
  - Both deferred envelopes are classes with a `memo` field, and `size`/`page` fields with
    their validating setters.
  - A ghost `calls` field records each producer call, so "at most one call, with
    the right pageable" is part of the contracts.
- **Storage** (`storage.dfy`, `feedback_repository.dfy`, `quiz_response_repository.dfy`).
  - A repository is a class over a table value. The table holds the rows in
    insertion order, the next generated key, and the failure the database engine
    is in, if any.
  - A derived `findBy…`/`countBy…`/`deleteBy…` is a conjunctive filter over the
    named fields.
  - The hand-written SQL is modelled clause by clause:
    - `COALESCE(SUM(…), 0)` is the sum, 0 for no rows;
    - `/ GREATEST(1, COUNT(*))` is the average, computed exactly, 0 for no rows;
    - `GROUP BY username ORDER BY total_score DESC, username ASC` is the ranking.
  - `save`, `deleteBy…` and `deleteAll` update the table in place and keep the
    key invariant (every row keyed, keys ascending, below the next key).
  - A finder returns a cold `Flow`. This is a value that remembers its repository and its
    query and runs the query against the table as it is when the flow is collected.
- **Services** (`feedback_service.dfy`, `quiz_response_service.dfy`).
  - Each operation of `FeedbackServiceImpl` and `QuizResponseServiceImpl` is a method.
  - Listings and the ranking return an unread deferred envelope. Its producer hands back the
    finder's flow for a fixed filter.
  - Counts, totals, averages, lookups, saves and removals run their repository call at
    once and return a single envelope holding its caught outcome.
- **Mappings** (`feedback.dfy`, `quiz_response.dfy`, `feedback_dto.dfy`, `quiz_response_dto.dfy`).
  - The `Feedback` and `QuizResponse` records.
  - `DifficultyRating` and `fromValue`.
  - The DTO conversions.

The scenario files (`envelope_scenarios.dfy`, `feedback_scenarios.dfy`,
`quiz_response_scenarios.dfy`) state the behaviour the repository's tests check,
for every input: the pageable an envelope passes, the rows a listing yields, and the
counts before and after a removal.

The code departs from its own documentation in two places, and the model follows the code:

- **Page size.** The `size` setter's message says "Size must be greater than 0"
  (`service/result/ServiceResult.kt:100`). Yet paged envelopes do not reject a size below 1
  when they are built or assigned.
  - The constructors store size and page unchecked.
  - The setters reject only negative values.
  - A size of 0 or below shows up as a failure at the first read, because
    `Pageable.ofSize` is called inside the `try`.
- **Storage failures in listings.** The service interfaces promise that a result "will only be
  failure on internal persistence exceptions" (`service/FeedbackService.kt:16-17`). Yet a listing's
  envelope reads as a success even when the database is failing. The finder only builds a cold
  flow, so the failure is thrown when the flow is collected, outside the envelope
  (`FeedbackScenarios.ListingFailureAtCollection`).
  Every eager operation turns a storage failure into a failure result.

## Model

| member | source | states |
|---|---|---|
| Outcomes.Catch | src/main/kotlin/com/jtaylorsoftware/livequiz/api/feedback/service/result/ServiceResult.kt:26-30 | a producer that returned gives a success carrying its value; one that threw gives a failure whose `ServiceException` wraps exactly what it threw |
| Paging.Request | src/main/kotlin/com/jtaylorsoftware/livequiz/api/feedback/service/result/ServiceResult.kt:124 | `Pageable.ofSize(size).withPage(page)` builds a page request exactly when size >= 1 and page >= 0, carrying both; otherwise it throws `IllegalArgumentException` |
| ServiceResult.Single | src/main/kotlin/com/jtaylorsoftware/livequiz/api/feedback/service/result/ServiceResult.kt:25-32 | the new single envelope holds the caught outcome of the producer, fixed when it is built |
| ServiceResult.SingleServiceResult.constructor | src/main/kotlin/com/jtaylorsoftware/livequiz/api/feedback/service/result/ServiceResult.kt:56 | the envelope keeps the result it is given |
| ServiceResult.Unpaged | src/main/kotlin/com/jtaylorsoftware/livequiz/api/feedback/service/result/ServiceResult.kt:40 | a new envelope over the given producer that has not been read and has made no producer call |
| ServiceResult.WithSize | src/main/kotlin/com/jtaylorsoftware/livequiz/api/feedback/service/result/ServiceResult.kt:49 | a new paged envelope with the given size, page 0 and the given producer, not yet read |
| ServiceResult.UnpagedServiceResult.constructor | src/main/kotlin/com/jtaylorsoftware/livequiz/api/feedback/service/result/ServiceResult.kt:62-63 | keeps the producer; no outcome remembered and no call made |
| ServiceResult.UnpagedServiceResult.Result | src/main/kotlin/com/jtaylorsoftware/livequiz/api/feedback/service/result/ServiceResult.kt:65-77 | the outcome is the caught result of the producer called with the unpaged request; afterwards exactly one call (unpaged) has been made and its outcome is remembered; a read of an already-read envelope makes no further call |
| ServiceResult.UnpagedServiceResult.WithSize | src/main/kotlin/com/jtaylorsoftware/livequiz/api/feedback/service/result/ServiceResult.kt:84 | a new paged envelope with the given size, page 0 and the same producer, unread; the original is not modified |
| ServiceResult.PagedServiceResult.constructor | src/main/kotlin/com/jtaylorsoftware/livequiz/api/feedback/service/result/ServiceResult.kt:91-92 | keeps size, page and producer as given, without the setters' checks; unread |
| ServiceResult.PagedServiceResult.SetSize | src/main/kotlin/com/jtaylorsoftware/livequiz/api/feedback/service/result/ServiceResult.kt:97-103 | a negative size throws `IllegalArgumentException` and keeps the old size; any other size, 0 included, is stored |
| ServiceResult.PagedServiceResult.SetPositiveSize | src/main/kotlin/com/jtaylorsoftware/livequiz/api/feedback/service/result/ServiceResult.kt:97-103 | corrected size setter: a size below 1 throws and keeps the old size; a size of 1 or more is stored |
| ServiceResult.PagedServiceResult.SetPage | src/main/kotlin/com/jtaylorsoftware/livequiz/api/feedback/service/result/ServiceResult.kt:108-114 | a negative page throws `IllegalArgumentException` and keeps the old page; any other page, 0 included, is stored |
| ServiceResult.PagedServiceResult.Result | src/main/kotlin/com/jtaylorsoftware/livequiz/api/feedback/service/result/ServiceResult.kt:116-130 | on the first read, a size below 1 or a negative page gives a failure wrapping `IllegalArgumentException` and no producer call; otherwise the outcome is the caught result of one call with (size, page); later reads return the remembered outcome and make no call, whatever size and page have become |
| ServiceResult.PagedServiceResult.WithPage | src/main/kotlin/com/jtaylorsoftware/livequiz/api/feedback/service/result/ServiceResult.kt:137 | a new unread envelope with this one's current size, the given page and the same producer; this one is not modified |
| FeedbackModel.DifficultyRating.Value | src/main/kotlin/com/jtaylorsoftware/livequiz/api/feedback/model/Feedback.kt:29-30 | each rating stores a value in 0..3, the inverse of `fromValue` on that range |
| FeedbackModel.FromValue | src/main/kotlin/com/jtaylorsoftware/livequiz/api/feedback/model/Feedback.kt:33-39 | returns a rating exactly for 0..3, the one whose value is the argument; any other integer throws `IllegalArgumentException` |
| FeedbackModel.FromValueInvertsValue | src/main/kotlin/com/jtaylorsoftware/livequiz/api/feedback/model/Feedback.kt:29-39 | reading back the value of any rating gives that rating |
| FeedbackModel.ValueAscendsWithDifficulty | src/main/kotlin/com/jtaylorsoftware/livequiz/api/feedback/model/Feedback.kt:30 | EASY=0 < DIFFICULT < CHALLENGING < IMPOSSIBLE=3 |
| FeedbackDtos.ToModel | src/main/kotlin/com/jtaylorsoftware/livequiz/api/feedback/mapping/FeedbackDto.kt:14-20 | copies quiz, user, question and message; stores the rating as a value in 0..3 that reads back as the submitted rating; the key is unassigned |
| FeedbackDtos.ToModelInjective | src/main/kotlin/com/jtaylorsoftware/livequiz/api/feedback/mapping/FeedbackDto.kt:14-20 | two submissions give the same row exactly when they are equal |
| QuizResponseDtos.ToModel | src/main/kotlin/com/jtaylorsoftware/livequiz/api/feedback/mapping/QuizResponseDto.kt:13-20 | copies every field unchanged, with no range check on the score; the key is unassigned |
| QuizResponseDtos.ToModelInjective | src/main/kotlin/com/jtaylorsoftware/livequiz/api/feedback/mapping/QuizResponseDto.kt:13-20 | two submissions give the same row exactly when they are field-for-field equal |
| Storage.Where | src/main/kotlin/com/jtaylorsoftware/livequiz/api/feedback/repository/FeedbackRepository.kt:10-30 | a derived filter keeps each matching row as often as it is stored and drops every other row |
| Storage.WhereMembers | src/main/kotlin/com/jtaylorsoftware/livequiz/api/feedback/repository/FeedbackRepository.kt:10-30 | a row is listed exactly when it is stored and matches |
| Storage.WherePartition | src/main/kotlin/com/jtaylorsoftware/livequiz/api/feedback/repository/FeedbackRepository.kt:62-66 | the rows a delete removes and the rows it keeps together make up the table, by multiset and by count |
| Storage.WhereAfterRemoval | src/main/kotlin/com/jtaylorsoftware/livequiz/api/feedback/repository/FeedbackRepository.kt:62-66 | after the matching rows are removed, the filter matches nothing |
| Storage.WhereOfWhere | src/main/kotlin/com/jtaylorsoftware/livequiz/api/feedback/repository/QuizResponseRepository.kt:51-58 | filtering by one condition and then another is filtering by their conjunction |
| Storage.WhereOfOnlyMatch | src/main/kotlin/com/jtaylorsoftware/livequiz/api/feedback/repository/QuizResponseRepository.kt:15-19 | a filter only one stored row satisfies lists that row alone |
| Storage.NoneMatch | src/main/kotlin/com/jtaylorsoftware/livequiz/api/feedback/repository/QuizResponseRepository.kt:27 | a filter no stored row satisfies lists nothing |
| Storage.AllMatch | src/main/kotlin/com/jtaylorsoftware/livequiz/api/feedback/repository/QuizResponseRepository.kt:63-70 | a filter every stored row satisfies lists the whole table |
| Storage.WhereKeepsOrder | src/main/kotlin/com/jtaylorsoftware/livequiz/api/feedback/repository/QuizResponseRepository.kt:36-46 | filtering keeps the relative order of the rows it keeps |
| Storage.PageOf | src/main/kotlin/com/jtaylorsoftware/livequiz/api/feedback/repository/FeedbackRepository.kt:10 | unpaged gives every row; a page request gives the window of the rows at offset pageNumber × pageSize, at most pageSize of them, each no more often than stored |
| Storage.Window | src/main/kotlin/com/jtaylorsoftware/livequiz/api/feedback/repository/FeedbackRepository.kt:10 | `LIMIT size OFFSET offset`: entry i of the window is row offset + i, and the window holds size rows, or all the rows after the offset when fewer remain, or none when the offset is past the end |
| Storage.Replace | src/main/kotlin/com/jtaylorsoftware/livequiz/api/feedback/repository/FeedbackRepository.kt:9 | saving a keyed record keeps the row count, and every row afterwards is the record or a row stored before |
| Storage.ReplaceChangesOneRow | src/main/kotlin/com/jtaylorsoftware/livequiz/api/feedback/repository/FeedbackRepository.kt:9 | with keys assigned, saving a keyed record overwrites exactly the one row holding that key, in its position, and no other |
| Storage.SumOf | src/main/kotlin/com/jtaylorsoftware/livequiz/api/feedback/repository/QuizResponseRepository.kt:53 | `COALESCE(SUM(…), 0)`: 0 over no rows, the row's value over one row |
| Storage.SumOfConcat | src/main/kotlin/com/jtaylorsoftware/livequiz/api/feedback/repository/QuizResponseRepository.kt:53 | the sum over two runs of rows is the sum of their sums |
| Storage.PageKeepsOrder | src/main/kotlin/com/jtaylorsoftware/livequiz/api/feedback/repository/QuizResponseRepository.kt:42 | a page keeps the relative order of the rows it holds |
| Storage.SumBounds | src/main/kotlin/com/jtaylorsoftware/livequiz/api/feedback/repository/FeedbackRepository.kt:43 | a sum of values in lo..hi lies between lo and hi times the number of rows |
| Storage.SumPartition | src/main/kotlin/com/jtaylorsoftware/livequiz/api/feedback/repository/QuizResponseRepository.kt:53 | the sum over a table is the sum over matching rows plus the sum over the rest |
| Storage.Average | src/main/kotlin/com/jtaylorsoftware/livequiz/api/feedback/repository/FeedbackRepository.kt:43 | sum over max(1, count): 0 for no rows, otherwise the mean times the row count is the sum |
| Storage.QuotientBounds | src/main/kotlin/com/jtaylorsoftware/livequiz/api/feedback/repository/FeedbackRepository.kt:43 | dividing a sum between lo*n and hi*n by n gives a value in lo..hi |
| Storage.AverageBounds | src/main/kotlin/com/jtaylorsoftware/livequiz/api/feedback/repository/FeedbackRepository.kt:43 | an average of values in lo..hi lies in lo..hi |
| Storage.Find | src/main/kotlin/com/jtaylorsoftware/livequiz/api/feedback/repository/FeedbackRepository.kt:10-30 | a derived finder throws the engine's failure when there is one, and otherwise lists the matching rows (all of them unpaged, at most a page paged) |
| Storage.FindMembers | src/main/kotlin/com/jtaylorsoftware/livequiz/api/feedback/repository/FeedbackRepository.kt:10-30 | a row is in a derived finder's unpaged listing exactly when it is stored and matches the filter; both repositories' finders use it |
| Storage.Count | src/main/kotlin/com/jtaylorsoftware/livequiz/api/feedback/repository/FeedbackRepository.kt:32-36 | a derived count throws the engine's failure or equals the number of rows the unpaged finder lists |
| Storage.FindOne | src/main/kotlin/com/jtaylorsoftware/livequiz/api/feedback/repository/QuizResponseRepository.kt:15-19 | a single-row finder gives null when nothing matches, the matching stored row when one does, and throws with the match count when several do |
| Storage.RemovalKeepsKeys | src/main/kotlin/com/jtaylorsoftware/livequiz/api/feedback/repository/FeedbackRepository.kt:62-66 | deleting rows keeps every remaining key assigned, below the next key and ascending |
| Storage.KeysDistinguishRows | src/main/kotlin/com/jtaylorsoftware/livequiz/api/feedback/model/Feedback.kt:23 | with keys assigned, two positions of the table hold different rows |
| Storage.CrudRepository.constructor | src/main/kotlin/com/jtaylorsoftware/livequiz/api/feedback/repository/FeedbackRepository.kt:9 | the repository starts over the table given |
| Storage.CrudRepository.Save | src/main/kotlin/com/jtaylorsoftware/livequiz/api/feedback/repository/FeedbackRepository.kt:9 | a record without a key is appended under the next key, which then advances; a keyed record replaces the row with that key, or throws when there is none; an engine failure is thrown and nothing changes; keys stay assigned |
| Storage.CrudRepository.DeleteWhere | src/main/kotlin/com/jtaylorsoftware/livequiz/api/feedback/repository/FeedbackRepository.kt:62-66 | returns the number of matching rows and keeps exactly the others, in order; an engine failure is thrown and nothing changes |
| Storage.CrudRepository.DeleteAll | src/main/kotlin/com/jtaylorsoftware/livequiz/api/feedback/repository/FeedbackRepository.kt:9 | removes every row without resetting the key counter; an engine failure is thrown and nothing changes |
| FeedbackRepositories.FindBy | src/main/kotlin/com/jtaylorsoftware/livequiz/api/feedback/repository/FeedbackRepository.kt:10-30 | the flow is bound to the repository; read with `Storage.Collect` on any table it fails exactly when the engine does, and otherwise lists the rows matching every named field |
| FeedbackRepositories.CountBy | src/main/kotlin/com/jtaylorsoftware/livequiz/api/feedback/repository/FeedbackRepository.kt:32-36 | the count is the size of the unpaged listing, and 0 exactly when no stored row matches |
| FeedbackRepositories.AverageRating | src/main/kotlin/com/jtaylorsoftware/livequiz/api/feedback/repository/FeedbackRepository.kt:41-60 | sum of matching ratings over max(1, count): 0 with no match, otherwise the mean times the count is the sum of the listed ratings |
| FeedbackRepositories.AverageRatingInScale | src/main/kotlin/com/jtaylorsoftware/livequiz/api/feedback/repository/FeedbackRepository.kt:41-60 | when every stored rating is a rating value, the average lies in 0..3 |
| FeedbackRepositories.Save | src/main/kotlin/com/jtaylorsoftware/livequiz/api/feedback/repository/FeedbackRepository.kt:9 | a new feedback is stored at the end under the next key and returned with it; an engine failure is thrown and nothing changes |
| FeedbackRepositories.DeleteBy | src/main/kotlin/com/jtaylorsoftware/livequiz/api/feedback/repository/FeedbackRepository.kt:62-66 | returns the count of matching rows taken before the call and keeps exactly the non-matching rows; keys stay assigned |
| FeedbackRepositories.DeleteByRemovesOnlyMatches | src/main/kotlin/com/jtaylorsoftware/livequiz/api/feedback/repository/FeedbackRepository.kt:62-66 | after the delete the count is 0, and every record the filter does not match is stored as often as before |
| QuizResponseRepositories.FindBy | src/main/kotlin/com/jtaylorsoftware/livequiz/api/feedback/repository/QuizResponseRepository.kt:11-25 | the flow is bound to the repository; read with `Storage.Collect` on any table it fails exactly when the engine does, and otherwise lists the rows matching every named field |
| QuizResponseRepositories.FindOneBy | src/main/kotlin/com/jtaylorsoftware/livequiz/api/feedback/repository/QuizResponseRepository.kt:15-19 | a found response is stored and matches quiz, question and user; null exactly when no stored response matches; a response when exactly one matches; an `IncorrectResultSize` failure carrying the count when several match; an engine failure is thrown |
| QuizResponseRepositories.FindOneByFindsOnlyMatch | src/main/kotlin/com/jtaylorsoftware/livequiz/api/feedback/repository/QuizResponseRepository.kt:15-19 | with exactly one stored response for (quiz, question, user), the lookup returns it |
| QuizResponseRepositories.CountBy | src/main/kotlin/com/jtaylorsoftware/livequiz/api/feedback/repository/QuizResponseRepository.kt:27-31 | the count is the size of the unpaged listing, and 0 exactly when no stored row matches |
| QuizResponseRepositories.TotalScoresByQuizIdDesc | src/main/kotlin/com/jtaylorsoftware/livequiz/api/feedback/repository/QuizResponseRepository.kt:36-46 | the flow is bound to the repository; unpaged it yields the ranking of the quiz's responses (one entry per user, total = sum of their scores, total descending then username ascending); paged, exactly the ranks from pageNumber × pageSize on, at most pageSize of them, still ranked |
| QuizResponseRepositories.RankedQuery | src/main/kotlin/com/jtaylorsoftware/livequiz/api/feedback/repository/QuizResponseRepository.kt:36-46 | the statement the ranking flow runs: fails exactly when the engine does; otherwise unpaged it yields the ranking, and paged exactly the window of the ranking at offset pageNumber × pageSize, at most pageSize entries, which is itself ranked |
| QuizResponseRepositories.PageKeepsRank | src/main/kotlin/com/jtaylorsoftware/livequiz/api/feedback/repository/QuizResponseRepository.kt:42 | a page of a ranking is ranked |
| QuizResponseRepositories.TotalScoreFor | src/main/kotlin/com/jtaylorsoftware/livequiz/api/feedback/repository/QuizResponseRepository.kt:51-58 | the total is the sum of the user's scores among the quiz's responses |
| QuizResponseRepositories.UserRowsOfQuiz | src/main/kotlin/com/jtaylorsoftware/livequiz/api/feedback/repository/QuizResponseRepository.kt:55 | the user's rows among the quiz's rows are the rows matching both |
| QuizResponseRepositories.TotalScoreForAgreesWithRanking | src/main/kotlin/com/jtaylorsoftware/livequiz/api/feedback/repository/QuizResponseRepository.kt:51-58 | the total equals the ranking's entry for the user, and is 0 for a user without responses in the quiz |
| QuizResponseRepositories.AverageScore | src/main/kotlin/com/jtaylorsoftware/livequiz/api/feedback/repository/QuizResponseRepository.kt:63-82 | sum of matching scores over max(1, count): 0 with no match, otherwise the mean times the count is the sum of the listed scores |
| QuizResponseRepositories.AverageScoreExample | src/main/kotlin/com/jtaylorsoftware/livequiz/api/feedback/repository/QuizResponseRepository.kt:63-70 | scores 4, 6 and 10 on one question average 20/3; a question without responses averages 0 |
| QuizResponseRepositories.ExampleScoresSum | src/main/kotlin/com/jtaylorsoftware/livequiz/api/feedback/repository/QuizResponseRepository.kt:65 | three scores 4, 6 and 10 sum to 20 and average 20/3 |
| QuizResponseRepositories.ExampleQuestionAverage | src/main/kotlin/com/jtaylorsoftware/livequiz/api/feedback/repository/QuizResponseRepository.kt:63-70 | a question filter that keeps all three example responses averages their scores to 20/3 |
| QuizResponseRepositories.Save | src/main/kotlin/com/jtaylorsoftware/livequiz/api/feedback/repository/QuizResponseRepository.kt:10 | a new response is stored at the end under the next key and returned with it; an engine failure is thrown and nothing changes |
| QuizResponseRepositories.DeleteBy | src/main/kotlin/com/jtaylorsoftware/livequiz/api/feedback/repository/QuizResponseRepository.kt:84-88 | returns the count of matching rows taken before the call and keeps exactly the non-matching rows; keys stay assigned |
| QuizResponseRepositories.DeleteByRemovesOnlyMatches | src/main/kotlin/com/jtaylorsoftware/livequiz/api/feedback/repository/QuizResponseRepository.kt:84-88 | after the delete the count is 0, and every record the filter does not match is stored as often as before |
| Ranking.LexLessIrreflexive | src/main/kotlin/com/jtaylorsoftware/livequiz/api/feedback/repository/QuizResponseRepository.kt:42 | no username sorts before itself |
| Ranking.LexLessAsymmetric | src/main/kotlin/com/jtaylorsoftware/livequiz/api/feedback/repository/QuizResponseRepository.kt:42 | two usernames never each sort before the other |
| Ranking.LexLessTransitive | src/main/kotlin/com/jtaylorsoftware/livequiz/api/feedback/repository/QuizResponseRepository.kt:42 | username order is transitive |
| Ranking.LexLessTotal | src/main/kotlin/com/jtaylorsoftware/livequiz/api/feedback/repository/QuizResponseRepository.kt:42 | of two distinct usernames one sorts before the other |
| Ranking.RanksBeforeAsymmetric | src/main/kotlin/com/jtaylorsoftware/livequiz/api/feedback/repository/QuizResponseRepository.kt:42 | two entries never each rank before the other |
| Ranking.RanksBeforeTransitive | src/main/kotlin/com/jtaylorsoftware/livequiz/api/feedback/repository/QuizResponseRepository.kt:42 | ranking order is transitive |
| Ranking.RanksBeforeTotal | src/main/kotlin/com/jtaylorsoftware/livequiz/api/feedback/repository/QuizResponseRepository.kt:42 | of two entries for different users, one ranks before the other |
| Ranking.StrictlyRankedIsDetermined | src/main/kotlin/com/jtaylorsoftware/livequiz/api/feedback/repository/QuizResponseRepository.kt:42 | two ranked lists with the same entries are equal: the ORDER BY fixes the order completely |
| Ranking.Insert | src/main/kotlin/com/jtaylorsoftware/livequiz/api/feedback/repository/QuizResponseRepository.kt:42 | inserting an entry adds exactly that entry: the result is the list plus the entry, as a multiset |
| Ranking.InsertRanks | src/main/kotlin/com/jtaylorsoftware/livequiz/api/feedback/repository/QuizResponseRepository.kt:42 | inserting an entry for a new user into a ranked list keeps it ranked and adds exactly that entry |
| Ranking.Rank | src/main/kotlin/com/jtaylorsoftware/livequiz/api/feedback/repository/QuizResponseRepository.kt:42 | ordering entries gives a permutation of them |
| Ranking.RankRanks | src/main/kotlin/com/jtaylorsoftware/livequiz/api/feedback/repository/QuizResponseRepository.kt:42 | ranking entries for distinct users gives a ranked permutation of them |
| Ranking.Usernames | src/main/kotlin/com/jtaylorsoftware/livequiz/api/feedback/repository/QuizResponseRepository.kt:41 | `GROUP BY username`: each user with a response appears exactly once, and no one else |
| Ranking.TotalScore | src/main/kotlin/com/jtaylorsoftware/livequiz/api/feedback/repository/QuizResponseRepository.kt:38 | `SUM(score)` over a user's responses, 0 for a user without responses |
| Ranking.Totals | src/main/kotlin/com/jtaylorsoftware/livequiz/api/feedback/repository/QuizResponseRepository.kt:38-41 | `GROUP BY username`: no two entries share a user, and each entry is a user with responses carrying that user's total score |
| Ranking.TotalsAreDistinctUsers | src/main/kotlin/com/jtaylorsoftware/livequiz/api/feedback/repository/QuizResponseRepository.kt:41 | the grouped totals have one entry per user |
| Ranking.TotalsCoverUsers | src/main/kotlin/com/jtaylorsoftware/livequiz/api/feedback/repository/QuizResponseRepository.kt:38-41 | each grouped entry carries the user's total score, and the entries cover exactly the users with responses |
| Ranking.RankedTotalsRank | src/main/kotlin/com/jtaylorsoftware/livequiz/api/feedback/repository/QuizResponseRepository.kt:38-42 | ranking the grouped totals gives a ranking of the rows |
| Ranking.RankedTotals | src/main/kotlin/com/jtaylorsoftware/livequiz/api/feedback/repository/QuizResponseRepository.kt:36-46 | the result is a ranking of the rows (one entry per user, correct totals, total descending then username ascending), and is empty exactly when there are no rows |
| Ranking.RankingIsUnique | src/main/kotlin/com/jtaylorsoftware/livequiz/api/feedback/repository/QuizResponseRepository.kt:36-46 | any ranking of the rows is the ranked totals |
| Ranking.TieBrokenByUsername | src/main/kotlin/com/jtaylorsoftware/livequiz/api/feedback/repository/QuizResponseRepository.kt:42 | bob 5, amy 5 and zed 9 rank as zed 9, amy 5, bob 5 |
| Ranking.ExampleRanking | src/main/kotlin/com/jtaylorsoftware/livequiz/api/feedback/repository/QuizResponseRepository.kt:36-42 | zed 9, amy 5, bob 5 is a ranking of the example's responses |
| Ranking.ExampleOrder | src/main/kotlin/com/jtaylorsoftware/livequiz/api/feedback/repository/QuizResponseRepository.kt:42 | zed 9, amy 5, bob 5 is in ranking order: the tie on 5 goes to amy |
| Ranking.ExampleTotals | src/main/kotlin/com/jtaylorsoftware/livequiz/api/feedback/repository/QuizResponseRepository.kt:38 | the example's totals are zed 9, amy 5 and bob 5 |
| Ranking.ExampleUsers | src/main/kotlin/com/jtaylorsoftware/livequiz/api/feedback/repository/QuizResponseRepository.kt:41 | the example's entries cover exactly its users |
| FeedbackServices.FeedbackServiceImpl.constructor | src/main/kotlin/com/jtaylorsoftware/livequiz/api/feedback/service/FeedbackServiceImpl.kt:13 | the service works on the repository given |
| FeedbackServices.FeedbackServiceImpl.Listing | src/main/kotlin/com/jtaylorsoftware/livequiz/api/feedback/service/FeedbackServiceImpl.kt:14-49 | a fresh unread envelope whose producer returns the finder flow for the filter on this repository, with whatever pageable it is given |
| FeedbackServices.FeedbackServiceImpl.GetForQuiz | src/main/kotlin/com/jtaylorsoftware/livequiz/api/feedback/service/FeedbackServiceImpl.kt:14-16 | deferred listing of the quiz's feedback |
| FeedbackServices.FeedbackServiceImpl.GetForQuizByUser | src/main/kotlin/com/jtaylorsoftware/livequiz/api/feedback/service/FeedbackServiceImpl.kt:18-21 | deferred listing filtered on quiz and user |
| FeedbackServices.FeedbackServiceImpl.GetForQuizWithRating | src/main/kotlin/com/jtaylorsoftware/livequiz/api/feedback/service/FeedbackServiceImpl.kt:23-26 | deferred listing filtered on quiz and the rating's value |
| FeedbackServices.FeedbackServiceImpl.GetForQuizQuestion | src/main/kotlin/com/jtaylorsoftware/livequiz/api/feedback/service/FeedbackServiceImpl.kt:28-31 | deferred listing filtered on quiz and question |
| FeedbackServices.FeedbackServiceImpl.GetForQuizQuestionByUser | src/main/kotlin/com/jtaylorsoftware/livequiz/api/feedback/service/FeedbackServiceImpl.kt:33-36 | deferred listing filtered on quiz, question and user |
| FeedbackServices.FeedbackServiceImpl.GetForQuizQuestionWithRating | src/main/kotlin/com/jtaylorsoftware/livequiz/api/feedback/service/FeedbackServiceImpl.kt:38-49 | deferred listing filtered on quiz, question and the rating's value |
| FeedbackServices.FeedbackServiceImpl.CountFeedbackForQuiz | src/main/kotlin/com/jtaylorsoftware/livequiz/api/feedback/service/FeedbackServiceImpl.kt:51-53 | the caught count of the quiz's feedback |
| FeedbackServices.FeedbackServiceImpl.CountFeedbackForQuizWithRating | src/main/kotlin/com/jtaylorsoftware/livequiz/api/feedback/service/FeedbackServiceImpl.kt:55-58 | the caught count for quiz and rating value |
| FeedbackServices.FeedbackServiceImpl.CountFeedbackForUser | src/main/kotlin/com/jtaylorsoftware/livequiz/api/feedback/service/FeedbackServiceImpl.kt:60-62 | the caught count of the user's feedback across all quizzes |
| FeedbackServices.FeedbackServiceImpl.GetAverageDifficultyRating | src/main/kotlin/com/jtaylorsoftware/livequiz/api/feedback/service/FeedbackServiceImpl.kt:64-66 | the caught quiz-wide average rating |
| FeedbackServices.FeedbackServiceImpl.GetAverageDifficultyRatingForQuestion | src/main/kotlin/com/jtaylorsoftware/livequiz/api/feedback/service/FeedbackServiceImpl.kt:68-71 | the caught average rating for quiz and question |
| FeedbackServices.FeedbackServiceImpl.Save | src/main/kotlin/com/jtaylorsoftware/livequiz/api/feedback/service/FeedbackServiceImpl.kt:73-75 | stores the converted submission under the next key and returns it; an engine failure becomes a failure and nothing changes |
| FeedbackServices.FeedbackServiceImpl.Remove | src/main/kotlin/com/jtaylorsoftware/livequiz/api/feedback/service/FeedbackServiceImpl.kt:77-88 | the caught count of matching rows before the call; exactly the non-matching rows remain |
| FeedbackServices.FeedbackServiceImpl.RemoveAllForQuiz | src/main/kotlin/com/jtaylorsoftware/livequiz/api/feedback/service/FeedbackServiceImpl.kt:77-79 | removes the quiz's feedback and returns how much there was |
| FeedbackServices.FeedbackServiceImpl.RemoveAllByUser | src/main/kotlin/com/jtaylorsoftware/livequiz/api/feedback/service/FeedbackServiceImpl.kt:81-83 | removes the user's feedback in every quiz and returns how much there was |
| FeedbackServices.FeedbackServiceImpl.RemoveAllForQuizQuestion | src/main/kotlin/com/jtaylorsoftware/livequiz/api/feedback/service/FeedbackServiceImpl.kt:85-88 | removes the feedback on that question and returns how much there was |
| QuizResponseServices.QuizResponseServiceImpl.constructor | src/main/kotlin/com/jtaylorsoftware/livequiz/api/feedback/service/QuizResponseServiceImpl.kt:13-14 | the service works on the repository given |
| QuizResponseServices.QuizResponseServiceImpl.Listing | src/main/kotlin/com/jtaylorsoftware/livequiz/api/feedback/service/QuizResponseServiceImpl.kt:15-27 | a fresh unread envelope whose producer returns the finder flow for the filter on this repository, with whatever pageable it is given |
| QuizResponseServices.QuizResponseServiceImpl.GetForQuiz | src/main/kotlin/com/jtaylorsoftware/livequiz/api/feedback/service/QuizResponseServiceImpl.kt:15-17 | deferred listing of the quiz's responses |
| QuizResponseServices.QuizResponseServiceImpl.GetForQuizByUser | src/main/kotlin/com/jtaylorsoftware/livequiz/api/feedback/service/QuizResponseServiceImpl.kt:19-22 | deferred listing filtered on quiz and user |
| QuizResponseServices.QuizResponseServiceImpl.GetAllForQuestion | src/main/kotlin/com/jtaylorsoftware/livequiz/api/feedback/service/QuizResponseServiceImpl.kt:24-27 | deferred listing filtered on quiz and question |
| QuizResponseServices.QuizResponseServiceImpl.GetForQuestionByUser | src/main/kotlin/com/jtaylorsoftware/livequiz/api/feedback/service/QuizResponseServiceImpl.kt:29-35 | the caught single-row lookup for quiz, question and user |
| QuizResponseServices.QuizResponseServiceImpl.CountResponsesForQuiz | src/main/kotlin/com/jtaylorsoftware/livequiz/api/feedback/service/QuizResponseServiceImpl.kt:37-39 | the caught count of the quiz's responses |
| QuizResponseServices.QuizResponseServiceImpl.CountResponsesForQuestion | src/main/kotlin/com/jtaylorsoftware/livequiz/api/feedback/service/QuizResponseServiceImpl.kt:41-44 | the caught count for quiz and question |
| QuizResponseServices.QuizResponseServiceImpl.CountResponsesForQuestionWithValue | src/main/kotlin/com/jtaylorsoftware/livequiz/api/feedback/service/QuizResponseServiceImpl.kt:46-52 | the caught count for quiz, question and value |
| QuizResponseServices.QuizResponseServiceImpl.GetHighestUserScores | src/main/kotlin/com/jtaylorsoftware/livequiz/api/feedback/service/QuizResponseServiceImpl.kt:54-57 | an unread envelope whose producer returns the ranking flow for the quiz with whatever pageable it is given, so it can be paged |
| QuizResponseServices.QuizResponseServiceImpl.GetTotalQuizScoreForUser | src/main/kotlin/com/jtaylorsoftware/livequiz/api/feedback/service/QuizResponseServiceImpl.kt:59-62 | the caught total of the user's scores in the quiz |
| QuizResponseServices.QuizResponseServiceImpl.GetAverageScoreForQuestion | src/main/kotlin/com/jtaylorsoftware/livequiz/api/feedback/service/QuizResponseServiceImpl.kt:64-67 | the caught average score for quiz and question |
| QuizResponseServices.QuizResponseServiceImpl.GetAverageScoreForUser | src/main/kotlin/com/jtaylorsoftware/livequiz/api/feedback/service/QuizResponseServiceImpl.kt:69-72 | the caught average score for quiz and user |
| QuizResponseServices.QuizResponseServiceImpl.Save | src/main/kotlin/com/jtaylorsoftware/livequiz/api/feedback/service/QuizResponseServiceImpl.kt:74-76 | stores the converted submission under the next key and returns it; an engine failure becomes a failure and nothing changes |
| QuizResponseServices.QuizResponseServiceImpl.Remove | src/main/kotlin/com/jtaylorsoftware/livequiz/api/feedback/service/QuizResponseServiceImpl.kt:78-89 | the caught count of matching rows before the call; exactly the non-matching rows remain |
| QuizResponseServices.QuizResponseServiceImpl.RemoveAllForQuiz | src/main/kotlin/com/jtaylorsoftware/livequiz/api/feedback/service/QuizResponseServiceImpl.kt:78-80 | removes the quiz's responses and returns how many there were |
| QuizResponseServices.QuizResponseServiceImpl.RemoveAllByUser | src/main/kotlin/com/jtaylorsoftware/livequiz/api/feedback/service/QuizResponseServiceImpl.kt:82-84 | removes the user's responses in that quiz only and returns how many there were |
| QuizResponseServices.QuizResponseServiceImpl.RemoveAllForQuestion | src/main/kotlin/com/jtaylorsoftware/livequiz/api/feedback/service/QuizResponseServiceImpl.kt:86-89 | removes the responses to that question and returns how many there were |
| EnvelopeScenarios.SingleOfThrowing | src/test/kotlin/com/jtaylorsoftware/livequiz/api/feedback/service/result/ServiceResultTests.kt:12-16 | a single envelope over a throwing producer holds a failure wrapping the throw |
| EnvelopeScenarios.UnpagedOfThrowing | src/test/kotlin/com/jtaylorsoftware/livequiz/api/feedback/service/result/ServiceResultTests.kt:18-22 | an unpaged envelope over a throwing producer reads as a failure wrapping the throw |
| EnvelopeScenarios.WithSizeOfThrowing | src/test/kotlin/com/jtaylorsoftware/livequiz/api/feedback/service/result/ServiceResultTests.kt:36-40 | a paged envelope over a throwing producer reads as a failure, for every size |
| EnvelopeScenarios.UnpagedWithSizeRequest | src/test/kotlin/com/jtaylorsoftware/livequiz/api/feedback/service/result/ServiceResultTests.kt:24-34 | `unpaged { … }.withSize(n)` passes page 0 of size n to the producer; a size below 1 reads as a failure |
| EnvelopeScenarios.WithSizeRequest | src/test/kotlin/com/jtaylorsoftware/livequiz/api/feedback/service/result/ServiceResultTests.kt:42-52 | `withSize(n) { … }` passes page 0 of size n to the producer; a size below 1 reads as a failure |
| EnvelopeScenarios.WithSizeWithPageRequest | src/test/kotlin/com/jtaylorsoftware/livequiz/api/feedback/service/result/ServiceResultTests.kt:54-66 | `withSize(n) { … }.withPage(p)` passes page p of size n; an invalid size or page reads as a failure |
| EnvelopeScenarios.ResizeAfterRead | src/main/kotlin/com/jtaylorsoftware/livequiz/api/feedback/service/result/ServiceResult.kt:116-130 | a paged envelope read once keeps its outcome after its size changes |
| EnvelopeScenarios.ZeroSizeAccepted | src/main/kotlin/com/jtaylorsoftware/livequiz/api/feedback/service/result/ServiceResult.kt:97-103 | the size setter as written accepts 0, after which the envelope reads as a failure |
| EnvelopeScenarios.ResizedEnvelopeReads | src/main/kotlin/com/jtaylorsoftware/livequiz/api/feedback/service/result/ServiceResult.kt:97-103 | with the corrected setter, an envelope built with a valid size reads the producer's outcome whatever size it is then given |
| FeedbackScenarios.RatingListing | src/test/kotlin/com/jtaylorsoftware/livequiz/api/feedback/service/FeedbackServiceTests.kt:56-69 | `getForQuiz(quizId, rating)` yields exactly the stored feedback of the quiz with that rating's value |
| FeedbackScenarios.QuestionByUserListing | src/test/kotlin/com/jtaylorsoftware/livequiz/api/feedback/service/FeedbackServiceTests.kt:91-101 | `getForQuizQuestion(quizId, question, user)` yields exactly the stored feedback matching all three |
| FeedbackScenarios.ListingSeesLaterSave | src/main/kotlin/com/jtaylorsoftware/livequiz/api/feedback/service/FeedbackServiceImpl.kt:14-16 | a listing read before a save and collected after it yields the saved feedback and every earlier feedback of the quiz |
| FeedbackScenarios.ListingFailureAtCollection | src/main/kotlin/com/jtaylorsoftware/livequiz/api/feedback/service/FeedbackServiceImpl.kt:14-16 | with the engine failing, a listing reads as a success and its collection throws the failure |
| FeedbackScenarios.RemoveQuizThenCount | src/test/kotlin/com/jtaylorsoftware/livequiz/api/feedback/service/FeedbackServiceTests.kt:119-128 | `removeAllForQuiz` returns the quiz's count before the call; afterwards counting the quiz gives 0 and every other quiz keeps its feedback |
| QuizResponseScenarios.UserListing | src/test/kotlin/com/jtaylorsoftware/livequiz/api/feedback/service/QuizResponseServiceTests.kt:86-94 | `getForQuiz(quizId, username)` yields exactly the user's stored responses to the quiz |
| QuizResponseScenarios.TopScores | src/main/kotlin/com/jtaylorsoftware/livequiz/api/feedback/service/QuizResponseServiceImpl.kt:54-57 | the highest-scores listing paged by n yields exactly the first min(n, number of users) entries of the quiz's ranking, ranked |
| QuizResponseScenarios.RemoveQuizThenCount | src/test/kotlin/com/jtaylorsoftware/livequiz/api/feedback/service/QuizResponseServiceTests.kt:201-209 | `removeAllForQuiz` returns the quiz's count before the call, and afterwards counting the quiz gives 0 |
| QuizResponseScenarios.RemoveUserInQuiz | src/test/kotlin/com/jtaylorsoftware/livequiz/api/feedback/service/QuizResponseServiceTests.kt:211-224 | `removeAllByUser(quizId, username)` returns the count removed, leaves none of that user's responses to the quiz, and keeps every other response as often as before |
| QuizResponseScenarios.RemoveQuestionLeavesNone | src/test/kotlin/com/jtaylorsoftware/livequiz/api/feedback/service/QuizResponseServiceTests.kt:226-243 | after `removeAllForQuestion` no response to that question remains |

## Left out

- Concurrency: the memo is a plain check-then-set that can run the producer twice under concurrent reads. Only sequential reads are modelled.
- Coroutines and streaming: `suspend`, and a `Flow` emitting rows one by one, are modelled as a query run in one step when the flow is collected.
- `Exception` versus `Error`: every producer outcome is either a value or a thrown cause. The message text of exceptions is not modelled.
- The `ServiceException` constructor without a cause, and the HTTP status mapping of `ServiceException`: transport only.
- ServiceResult.Single: takes the outcome of the producer, already run by the caller, rather than the producer itself, because a producer that reads the repository cannot be stored as a value. The caller runs it exactly once, at construction, as the source does.
- Storage.Average: computed as an exact rational. The `DECIMAL` division and the conversion to `Float` (with its rounding) are left out.
- Integers are unbounded. Overflow of the 32-bit `Int` columns, sums and counts is not modelled.
- Ranking.LexLess: compares usernames by code point. The database's collation for `ORDER BY username` is not modelled.
- Storage.PageOf: a page is `LIMIT pageSize OFFSET pageNumber × pageSize` over the rows in table (insertion) order. Derived finders have no `ORDER BY`, and the order the database returns their rows in is not modelled, so the finder contracts promise only "at most a page of matching rows, each no more often than stored", not which rows.
- QuizResponseRepositories.TotalScoresByQuizIdDesc: the model assumes that Spring Data R2DBC applies the `Pageable` to the hand-written `@Query` as `LIMIT pageSize OFFSET pageNumber × pageSize` after its `ORDER BY`. That translation happens in the framework, which is not part of this model.
- Spring `Pageable` internals: sorting, offsets beyond the page number times the size, and `Pageable` objects other than the unpaged request and `ofSize(size).withPage(page)`.
- Database failures are represented by the table's `fault` field, which the environment sets. Every statement run while it is set throws it and changes nothing. Connection handling and transactions are not modelled.
- Storage.CrudRepository.Save: a record is a value, so the source's in-place assignment of the generated key to the caller's object, and any aliasing through it, are not modelled. The saved copy carrying the key is returned instead.
- `HelloController`, `FeedbackApplication` and the build script contain no logic of the core.

## Findings

| source | as written | input that shows it | evidently intended | confidence | as-written member | corrected member |
|---|---|---|---|---|---|---|
| src/main/kotlin/com/jtaylorsoftware/livequiz/api/feedback/service/result/ServiceResult.kt:98-103 | the `size` setter throws only for `value < 0`, although its message says the size must be greater than 0 | `size = 0` on a paged envelope not yet read: accepted, after which its first read, and so every read, fails, because Spring's `Pageable.ofSize(0)` rejects a size below 1. The `page` setter has the same "greater than 0" message while 0 is a valid first page, so the message alone is weak evidence; the framework rejecting size 0 is the stronger one | reject sizes below 1, so that an accepted size can always be read | medium, not executed | EnvelopeScenarios.ZeroSizeAccepted | ServiceResult.PagedServiceResult.SetPositiveSize |
