/** The ranking query behind `getTotalScoresByQuizIdDesc`: group a quiz's responses
    by username, sum each group's scores, and order the groups by total descending,
    then by username ascending. */
module Ranking {
  import opened QuizResponseModel
  import opened Storage

  // ---------------------------------------------------------------- username order

  /** `username ASC`: lexicographic order on code points, a proper prefix first. */
  predicate LexLess(a: string, b: string)
  {
    if a == [] then b != []
    else if b == [] then false
    else if a[0] != b[0] then a[0] < b[0]
    else LexLess(a[1..], b[1..])
  }

  lemma {:induction false} LexLessIrreflexive(a: string)
    ensures !LexLess(a, a)
  {
    if a != [] {
      LexLessIrreflexive(a[1..]);
    }
  }

  lemma {:induction false} LexLessAsymmetric(a: string, b: string)
    ensures !(LexLess(a, b) && LexLess(b, a))
  {
    if a != [] && b != [] && a[0] == b[0] {
      LexLessAsymmetric(a[1..], b[1..]);
    }
  }

  lemma {:induction false} LexLessTransitive(a: string, b: string, c: string)
    requires LexLess(a, b) && LexLess(b, c)
    ensures LexLess(a, c)
  {
    if a != [] && b != [] && c != [] && a[0] == b[0] && b[0] == c[0] {
      LexLessTransitive(a[1..], b[1..], c[1..]);
    }
  }

  /** Any two different usernames are ordered one way or the other. */
  lemma {:induction false} LexLessTotal(a: string, b: string)
    ensures a == b || LexLess(a, b) || LexLess(b, a)
  {
    if a != [] && b != [] && a[0] == b[0] {
      LexLessTotal(a[1..], b[1..]);
      assert a == [a[0]] + a[1..] && b == [b[0]] + b[1..];
    }
  }

  // ---------------------------------------------------------------- entry order

  /** `ORDER BY total_score DESC, username ASC`: `x` comes before `y`. */
  predicate RanksBefore(x: UserWithScore, y: UserWithScore)
  {
    x.totalScore > y.totalScore || (x.totalScore == y.totalScore && LexLess(x.username, y.username))
  }

  lemma RanksBeforeAsymmetric(x: UserWithScore, y: UserWithScore)
    ensures !(RanksBefore(x, y) && RanksBefore(y, x))
  {
    LexLessAsymmetric(x.username, y.username);
  }

  lemma RanksBeforeTransitive(x: UserWithScore, y: UserWithScore, z: UserWithScore)
    requires RanksBefore(x, y) && RanksBefore(y, z)
    ensures RanksBefore(x, z)
  {
    if x.totalScore == y.totalScore == z.totalScore {
      LexLessTransitive(x.username, y.username, z.username);
    }
  }

  /** Entries for different users are always ordered one way or the other. */
  lemma RanksBeforeTotal(x: UserWithScore, y: UserWithScore)
    requires x.username != y.username
    ensures RanksBefore(x, y) || RanksBefore(y, x)
  {
    LexLessTotal(x.username, y.username);
  }

  /** Every entry comes strictly before every later one (so no entry repeats). */
  ghost predicate StrictlyRanked(s: seq<UserWithScore>)
  {
    forall i, j :: 0 <= i < j < |s| ==> RanksBefore(s[i], s[j])
  }

  /** Two strictly ranked sequences with the same entries are the same sequence. */
  lemma {:induction false} StrictlyRankedIsDetermined(a: seq<UserWithScore>, b: seq<UserWithScore>)
    requires StrictlyRanked(a) && StrictlyRanked(b)
    requires forall e :: e in a <==> e in b
    ensures a == b
  {
    if a != [] { assert a[0] in a; }
    if b != [] { assert b[0] in b; }
    if a != [] && b != [] {
      assert a[0] in a && b[0] in b;
      var k :| 0 <= k < |b| && b[k] == a[0];
      var m :| 0 <= m < |a| && a[m] == b[0];
      RanksBeforeAsymmetric(a[0], b[0]);
      assert k == 0 || m == 0;
      assert a[0] == b[0];
      assert a == [a[0]] + a[1..] && b == [b[0]] + b[1..];
      forall e ensures e in a[1..] <==> e in b[1..] {
        if e in a[1..] {
          var i :| 1 <= i < |a| && a[i] == e;
          RanksBeforeAsymmetric(a[0], a[i]);
          assert e in b && e != b[0];
        }
        if e in b[1..] {
          var j :| 1 <= j < |b| && b[j] == e;
          RanksBeforeAsymmetric(b[0], b[j]);
          assert e in a && e != a[0];
        }
      }
      StrictlyRankedIsDetermined(a[1..], b[1..]);
    }
  }

  // ---------------------------------------------------------------- ordering

  /** Puts `x` in its place in a ranked sequence. */
  function Insert(x: UserWithScore, s: seq<UserWithScore>): (inserted: seq<UserWithScore>)
    ensures multiset(inserted) == multiset(s) + multiset{x}
  {
    if s == [] then [x]
    else
      assert s == [s[0]] + s[1..];
      if RanksBefore(x, s[0]) then [x] + s
      else [s[0]] + Insert(x, s[1..])
  }

  lemma {:induction false} InsertRanks(x: UserWithScore, s: seq<UserWithScore>)
    requires StrictlyRanked(s)
    requires forall e :: e in s ==> e.username != x.username
    ensures StrictlyRanked(Insert(x, s))
    ensures multiset(Insert(x, s)) == multiset(s) + multiset{x}
  {
    if s == [] {
    } else if RanksBefore(x, s[0]) {
      forall j | 0 <= j < |s| ensures RanksBefore(x, s[j]) {
        if j > 0 { RanksBeforeTransitive(x, s[0], s[j]); }
      }
    } else {
      assert s == [s[0]] + s[1..];
      RanksBeforeTotal(x, s[0]);
      InsertRanks(x, s[1..]);
      var rest := Insert(x, s[1..]);
      forall e | e in rest ensures RanksBefore(s[0], e) {
        assert e in multiset(rest);
        if e != x {
          var j :| 1 <= j < |s| && s[j] == e;
        }
      }
    }
  }

  /** Orders entries for distinct users by `RanksBefore` (insertion sort). */
  function Rank(s: seq<UserWithScore>): (ranked: seq<UserWithScore>)
    ensures multiset(ranked) == multiset(s)
  {
    if s == [] then []
    else
      assert s == [s[0]] + s[1..];
      Insert(s[0], Rank(s[1..]))
  }

  lemma {:induction false} RankRanks(s: seq<UserWithScore>)
    requires forall i, j :: 0 <= i < j < |s| ==> s[i].username != s[j].username
    ensures StrictlyRanked(Rank(s))
    ensures multiset(Rank(s)) == multiset(s)
  {
    if s != [] {
      assert s == [s[0]] + s[1..];
      RankRanks(s[1..]);
      forall e | e in Rank(s[1..]) ensures e.username != s[0].username {
        assert e in multiset(s[1..]);
      }
      InsertRanks(s[0], Rank(s[1..]));
    }
  }

  // ---------------------------------------------------------------- grouping

  /** The users with at least one response among `rows`. */
  function UsersOf(rows: seq<QuizResponse>): set<string>
  {
    set r | r in rows :: r.username
  }

  /** The users a ranking has an entry for. */
  function RankedUsers(ranked: seq<UserWithScore>): set<string>
  {
    set e | e in ranked :: e.username
  }

  /** `GROUP BY username`: each username with a response, once. */
  function Usernames(rows: seq<QuizResponse>): (names: seq<string>)
    ensures forall u :: u in names <==> u in UsersOf(rows)
    ensures forall i, j :: 0 <= i < j < |names| ==> names[i] != names[j]
  {
    if rows == [] then []
    else
      var rest := Usernames(rows[1..]);
      assert forall r :: r in rows[1..] ==> r in rows;
      assert forall r :: r in rows ==> r == rows[0] || r in rows[1..];
      if rows[0].username in rest then rest else [rows[0].username] + rest
  }

  function ByUsername(username: string): QuizResponse -> bool
  {
    (response: QuizResponse) => response.username == username
  }

  function Score(response: QuizResponse): int { response.score }

  /** `COALESCE(SUM(score), 0)` over one user's responses. */
  function TotalScore(rows: seq<QuizResponse>, username: string): (total: int)
    ensures username !in UsersOf(rows) ==> total == 0
  {
    var mine := Where(rows, ByUsername(username));
    assert username !in UsersOf(rows) ==> mine == [] by {
      if username !in UsersOf(rows) {
        forall j | 0 <= j < |rows| ensures !ByUsername(username)(rows[j]) {
          assert rows[j] in rows;
        }
        NoneMatch(rows, ByUsername(username));
      }
    }
    SumOf(mine, Score)
  }

  /** `ranked` is what the ranking query may return for `rows`: one entry for each
      user with a response, holding the sum of that user's scores, ordered by
      total descending and username ascending. */
  ghost predicate IsRanking(ranked: seq<UserWithScore>, rows: seq<QuizResponse>)
  {
    && StrictlyRanked(ranked)
    && (forall e :: e in ranked ==> e.totalScore == TotalScore(rows, e.username))
    && RankedUsers(ranked) == UsersOf(rows)
  }

  /** One entry per user with a response, holding the user's total, in no particular order. */
  function Totals(rows: seq<QuizResponse>): (totals: seq<UserWithScore>)
    ensures forall i, j :: 0 <= i < j < |totals| ==> totals[i].username != totals[j].username
    ensures forall e :: e in totals ==> e.username in UsersOf(rows) && e.totalScore == TotalScore(rows, e.username)
  {
    var names := Usernames(rows);
    seq(|names|, i requires 0 <= i < |names| => UserWithScore(names[i], TotalScore(rows, names[i])))
  }

  lemma TotalsAreDistinctUsers(rows: seq<QuizResponse>)
    ensures forall i, j :: 0 <= i < j < |Totals(rows)| ==> Totals(rows)[i].username != Totals(rows)[j].username
  {
  }

  lemma TotalsCoverUsers(rows: seq<QuizResponse>)
    ensures forall e :: e in Totals(rows) ==> e.totalScore == TotalScore(rows, e.username)
    ensures RankedUsers(Totals(rows)) == UsersOf(rows)
  {
    var names := Usernames(rows);
    var totals := Totals(rows);
    forall u ensures u in RankedUsers(totals) <==> u in UsersOf(rows) {
      if u in UsersOf(rows) {
        var i :| 0 <= i < |names| && names[i] == u;
        assert totals[i] in totals;
      }
    }
  }

  /** Ordering the totals answers the ranking query. */
  lemma RankedTotalsRank(rows: seq<QuizResponse>)
    ensures IsRanking(Rank(Totals(rows)), rows)
  {
    var totals := Totals(rows);
    TotalsAreDistinctUsers(rows);
    TotalsCoverUsers(rows);
    RankRanks(totals);
    forall e ensures e in Rank(totals) <==> e in totals {
      assert e in Rank(totals) <==> e in multiset(Rank(totals));
    }
    assert RankedUsers(Rank(totals)) == RankedUsers(totals);
  }

  /** The ranking query's answer. */
  function RankedTotals(rows: seq<QuizResponse>): (ranked: seq<UserWithScore>)
    ensures IsRanking(ranked, rows)
    ensures ranked == [] <==> rows == []
  {
    RankedTotalsRank(rows);
    assert rows != [] ==> rows[0].username in UsersOf(rows);
    Rank(Totals(rows))
  }

  /** Any correct answer to the ranking query is this one: grouping, summing and
      the two-key order leave no choice. */
  lemma RankingIsUnique(ranked: seq<UserWithScore>, rows: seq<QuizResponse>)
    requires IsRanking(ranked, rows)
    ensures ranked == RankedTotals(rows)
  {
    var expected := RankedTotals(rows);
    forall e ensures e in ranked <==> e in expected {
      if e in ranked {
        assert e.username in RankedUsers(expected);
        var f :| f in expected && f.username == e.username;
      }
      if e in expected {
        assert e.username in RankedUsers(ranked);
        var f :| f in ranked && f.username == e.username;
      }
    }
    StrictlyRankedIsDetermined(ranked, expected);
  }

  /** Bob and Amy tie on 5 and Zed leads with 9: Zed first, then Amy before Bob. */
  lemma TieBrokenByUsername(rows: seq<QuizResponse>)
    requires rows == [
      QuizResponse("Q1", "bob", 0, "a", 5),
      QuizResponse("Q1", "amy", 0, "b", 5),
      QuizResponse("Q1", "zed", 0, "c", 9)]
    ensures RankedTotals(rows) == [UserWithScore("zed", 9), UserWithScore("amy", 5), UserWithScore("bob", 5)]
  {
    var expected := [UserWithScore("zed", 9), UserWithScore("amy", 5), UserWithScore("bob", 5)];
    ExampleRanking(rows, expected);
    RankingIsUnique(expected, rows);
  }

  lemma ExampleTotals(rows: seq<QuizResponse>)
    requires rows == [
      QuizResponse("Q1", "bob", 0, "a", 5),
      QuizResponse("Q1", "amy", 0, "b", 5),
      QuizResponse("Q1", "zed", 0, "c", 9)]
    ensures TotalScore(rows, "zed") == 9 && TotalScore(rows, "amy") == 5 && TotalScore(rows, "bob") == 5
  {
    WhereOfOnlyMatch(rows, ByUsername("bob"), 0);
    assert SumOf([rows[0]], Score) == 5;
    WhereOfOnlyMatch(rows, ByUsername("amy"), 1);
    assert SumOf([rows[1]], Score) == 5;
    WhereOfOnlyMatch(rows, ByUsername("zed"), 2);
    assert SumOf([rows[2]], Score) == 9;
  }

  lemma ExampleRanking(rows: seq<QuizResponse>, expected: seq<UserWithScore>)
    requires rows == [
      QuizResponse("Q1", "bob", 0, "a", 5),
      QuizResponse("Q1", "amy", 0, "b", 5),
      QuizResponse("Q1", "zed", 0, "c", 9)]
    requires expected == [UserWithScore("zed", 9), UserWithScore("amy", 5), UserWithScore("bob", 5)]
    ensures IsRanking(expected, rows)
  {
    ExampleTotals(rows);
    ExampleOrder(expected);
    ExampleUsers(rows, expected);
    forall e | e in expected ensures e.totalScore == TotalScore(rows, e.username) {
      assert e == expected[0] || e == expected[1] || e == expected[2];
    }
  }

  lemma ExampleOrder(expected: seq<UserWithScore>)
    requires expected == [UserWithScore("zed", 9), UserWithScore("amy", 5), UserWithScore("bob", 5)]
    ensures StrictlyRanked(expected)
  {
    assert LexLess("amy", "bob");
  }

  lemma ExampleUsers(rows: seq<QuizResponse>, expected: seq<UserWithScore>)
    requires rows == [
      QuizResponse("Q1", "bob", 0, "a", 5),
      QuizResponse("Q1", "amy", 0, "b", 5),
      QuizResponse("Q1", "zed", 0, "c", 9)]
    requires expected == [UserWithScore("zed", 9), UserWithScore("amy", 5), UserWithScore("bob", 5)]
    ensures RankedUsers(expected) == UsersOf(rows)
  {
    assert UsersOf(rows) == {"bob", "amy", "zed"};
    assert RankedUsers(expected) == {"bob", "amy", "zed"};
  }
}
