/** The relational storage both repositories stand on: a table of records with a
    generated integer key, the conjunctive row filters Spring Data derives from
    query-method names, the aggregates the hand-written SQL computes, and the
    inherited `save`, `deleteBy…` and `deleteAll` of `CoroutineCrudRepository`. */
module Storage {
  import opened Outcomes
  import opened Paging

  /** A table as the storage engine holds it: its rows in insertion order, the next
      key its `SERIAL` column will hand out, and a failure the engine is in, if any
      (every statement run while `fault` is set throws it and changes nothing). */
  datatype Table<R> = Table(rows: seq<R>, nextId: int, fault: Option<Cause>)

  /** A fresh table: no rows, keys start at 1. */
  function Empty<R>(): Table<R> { Table([], 1, None) }

  // ---------------------------------------------------------------- row filters

  /** `WHERE keep(row)`: the rows that satisfy `keep`, in table order. */
  function Where<R(==,!new)>(rows: seq<R>, keep: R -> bool): (kept: seq<R>)
    ensures |kept| <= |rows|
    ensures forall x :: multiset(kept)[x] == if keep(x) then multiset(rows)[x] else 0
  {
    if rows == [] then []
    else
      assert rows == [rows[0]] + rows[1..];
      if keep(rows[0]) then [rows[0]] + Where(rows[1..], keep) else Where(rows[1..], keep)
  }

  /** `WHERE NOT keep(row)`. */
  function Not<R>(keep: R -> bool): R -> bool
  {
    row => !keep(row)
  }

  /** A row is listed exactly when it is stored and satisfies the filter. */
  lemma WhereMembers<R(!new)>(rows: seq<R>, keep: R -> bool, x: R)
    ensures x in Where(rows, keep) <==> x in rows && keep(x)
  {
    assert x in Where(rows, keep) <==> multiset(Where(rows, keep))[x] > 0;
    assert x in rows <==> multiset(rows)[x] > 0;
  }

  /** Every row satisfies a filter or its negation, never both: the two listings
      together are the table. */
  lemma WherePartition<R(!new)>(rows: seq<R>, keep: R -> bool)
    ensures multiset(Where(rows, keep)) + multiset(Where(rows, Not(keep))) == multiset(rows)
    ensures |Where(rows, keep)| + |Where(rows, Not(keep))| == |rows|
  {
    var both := multiset(Where(rows, keep)) + multiset(Where(rows, Not(keep)));
    forall x ensures both[x] == multiset(rows)[x] {
      assert Not(keep)(x) == !keep(x);
    }
    assert both == multiset(rows);
    assert |both| == |multiset(rows)|;
  }

  /** After the rows a filter selects are removed, the filter selects nothing. */
  lemma WhereAfterRemoval<R(!new)>(rows: seq<R>, keep: R -> bool)
    ensures Where(Where(rows, Not(keep)), keep) == []
  {
    var left := Where(Where(rows, Not(keep)), keep);
    forall x ensures multiset(left)[x] == 0 {
      assert Not(keep)(x) == !keep(x);
    }
    assert multiset(left) == multiset{};
  }

  /** Filtering twice is filtering once by the conjunction. */
  lemma {:induction false} WhereOfWhere<R(!new)>(rows: seq<R>, outer: R -> bool, inner: R -> bool, both: R -> bool)
    requires forall x :: both(x) == (outer(x) && inner(x))
    ensures Where(Where(rows, outer), inner) == Where(rows, both)
  {
    if rows != [] {
      WhereOfWhere(rows[1..], outer, inner, both);
      if outer(rows[0]) {
        assert ([rows[0]] + Where(rows[1..], outer))[1..] == Where(rows[1..], outer);
      }
    }
  }

  /** A filter that only one row satisfies lists that row alone. */
  lemma {:induction false} WhereOfOnlyMatch<R(!new)>(rows: seq<R>, keep: R -> bool, i: nat)
    requires i < |rows| && keep(rows[i])
    requires forall j :: 0 <= j < |rows| && j != i ==> !keep(rows[j])
    ensures Where(rows, keep) == [rows[i]]
  {
    if i == 0 {
      NoneMatch(rows[1..], keep);
    } else {
      assert !keep(rows[0]);
      WhereOfOnlyMatch(rows[1..], keep, i - 1);
    }
  }

  /** A filter no row satisfies lists nothing. */
  lemma {:induction false} NoneMatch<R(!new)>(rows: seq<R>, keep: R -> bool)
    requires forall j :: 0 <= j < |rows| ==> !keep(rows[j])
    ensures Where(rows, keep) == []
  {
    if rows != [] {
      NoneMatch(rows[1..], keep);
    }
  }

  /** A filter every row satisfies lists the whole table. */
  lemma {:induction false} AllMatch<R(!new)>(rows: seq<R>, keep: R -> bool)
    requires forall j :: 0 <= j < |rows| ==> keep(rows[j])
    ensures Where(rows, keep) == rows
  {
    if rows != [] {
      AllMatch(rows[1..], keep);
      assert rows == [rows[0]] + rows[1..];
    }
  }

  /** Filtering keeps the relative order of the rows it keeps. */
  lemma {:induction false} WhereKeepsOrder<R(!new)>(rows: seq<R>, keep: R -> bool, before: (R, R) -> bool)
    requires forall i, j :: 0 <= i < j < |rows| ==> before(rows[i], rows[j])
    ensures forall i, j :: 0 <= i < j < |Where(rows, keep)| ==> before(Where(rows, keep)[i], Where(rows, keep)[j])
  {
    if rows != [] {
      WhereKeepsOrder(rows[1..], keep, before);
      var rest := Where(rows[1..], keep);
      forall x | x in rest ensures before(rows[0], x) {
        WhereMembers(rows[1..], keep, x);
      }
    }
  }

  // ---------------------------------------------------------------- paging

  /** The slice of `rows` a pageable selects: all of them when unpaged, otherwise
      the `pageNumber`-th run of `pageSize` rows (possibly short or empty). */
  function PageOf<R>(rows: seq<R>, pageable: Pageable): (page: seq<R>)
    ensures pageable.Unpaged? ==> page == rows
    ensures pageable.PageRequest? ==> page == Window(rows, pageable.Offset(), pageable.pageSize)
    ensures pageable.PageRequest? ==> |page| <= pageable.pageSize
    ensures multiset(page) <= multiset(rows)
  {
    match pageable
    case Unpaged => rows
    case PageRequest(size, number) => Window(rows, number * size, size)
  }

  /** `LIMIT size OFFSET offset`: the rows from position `offset` on, at most `size`
      of them, and none when `offset` is past the end. */
  function Window<R>(rows: seq<R>, offset: nat, size: nat): (window: seq<R>)
    ensures |window| == if offset >= |rows| then 0 else if |rows| - offset < size then |rows| - offset else size
    ensures forall i :: 0 <= i < |window| ==> window[i] == rows[offset + i]
    ensures |window| <= size
    ensures multiset(window) <= multiset(rows)
  {
    var start := if offset < |rows| then offset else |rows|;
    var end := if start + size < |rows| then start + size else |rows|;
    assert rows == rows[..start] + rows[start..end] + rows[end..];
    rows[start..end]
  }

  /** A page keeps the relative order of the rows it holds. */
  lemma PageKeepsOrder<R>(rows: seq<R>, pageable: Pageable, before: (R, R) -> bool)
    requires forall i, j :: 0 <= i < j < |rows| ==> before(rows[i], rows[j])
    ensures forall i, j :: 0 <= i < j < |PageOf(rows, pageable)| ==> before(PageOf(rows, pageable)[i], PageOf(rows, pageable)[j])
  {
    if pageable.PageRequest? {
      var offset := pageable.Offset();
      var start := if offset < |rows| then offset else |rows|;
      var page := Window(rows, offset, pageable.pageSize);
      forall i, j | 0 <= i < j < |page| ensures before(page[i], page[j]) {
        assert page[i] == rows[start + i] && page[j] == rows[start + j];
      }
    }
  }

  /** `listed` is what a query over `rows` filtered by `keep` may yield under
      `pageable`: unpaged, every matching row with its multiplicity and nothing
      else; paged, at most a page of matching rows. Derived finders have no
      `ORDER BY`, so which matching rows a page holds is left open. */
  ghost predicate Lists<R(!new)>(listed: seq<R>, rows: seq<R>, keep: R -> bool, pageable: Pageable)
  {
    && (forall x :: multiset(listed)[x] <= (if keep(x) then multiset(rows)[x] else 0))
    && (pageable.Unpaged? ==> forall x :: multiset(listed)[x] == (if keep(x) then multiset(rows)[x] else 0))
    && (pageable.PageRequest? ==> |listed| <= pageable.pageSize)
  }

  // ---------------------------------------------------------------- aggregates

  /** `COALESCE(SUM(val(row)), 0)`. */
  function SumOf<R>(rows: seq<R>, val: R -> int): (sum: int)
    ensures rows == [] ==> sum == 0
    ensures |rows| == 1 ==> sum == val(rows[0])
  {
    if rows == [] then 0 else val(rows[0]) + SumOf(rows[1..], val)
  }

  /** The sum over two runs of rows is the sum of their sums. */
  lemma {:induction false} SumOfConcat<R>(a: seq<R>, b: seq<R>, val: R -> int)
    ensures SumOf(a + b, val) == SumOf(a, val) + SumOf(b, val)
  {
    if a == [] {
      assert a + b == b;
    } else {
      assert (a + b)[1..] == a[1..] + b;
      SumOfConcat(a[1..], b, val);
    }
  }

  /** A sum of values in `lo..hi` lies between `lo` and `hi` times the row count. */
  lemma {:induction false} SumBounds<R>(rows: seq<R>, val: R -> int, lo: int, hi: int)
    requires forall i :: 0 <= i < |rows| ==> lo <= val(rows[i]) <= hi
    ensures lo * |rows| <= SumOf(rows, val) <= hi * |rows|
  {
    if rows != [] {
      var rest := |rows| - 1;
      SumBounds(rows[1..], val, lo, hi);
      assert lo * |rows| == lo + lo * rest && hi * |rows| == hi + hi * rest;
    }
  }

  /** The sum over a table is the sum over the rows a filter keeps plus the sum over the rest. */
  lemma {:induction false} SumPartition<R(!new)>(rows: seq<R>, keep: R -> bool, val: R -> int)
    ensures SumOf(Where(rows, keep), val) + SumOf(Where(rows, Not(keep)), val) == SumOf(rows, val)
  {
    if rows != [] {
      SumPartition(rows[1..], keep, val);
      assert Not(keep)(rows[0]) == !keep(rows[0]);
      if keep(rows[0]) {
        assert ([rows[0]] + Where(rows[1..], keep))[1..] == Where(rows[1..], keep);
      } else {
        assert ([rows[0]] + Where(rows[1..], Not(keep)))[1..] == Where(rows[1..], Not(keep));
      }
    }
  }

  /** `CAST(COALESCE(SUM(val), 0) AS DECIMAL) / GREATEST(1, COUNT(*))`, computed exactly. */
  function Average<R>(rows: seq<R>, val: R -> int): (mean: real)
    ensures rows == [] ==> mean == 0.0
    ensures rows != [] ==> mean * |rows| as real == SumOf(rows, val) as real
  {
    SumOf(rows, val) as real / (if rows == [] then 1 else |rows|) as real
  }

  /** A quotient of a sum in `lo * n .. hi * n` by `n` lies in `lo .. hi`. */
  lemma QuotientBounds(sum: real, n: real, lo: real, hi: real)
    requires n > 0.0 && lo * n <= sum <= hi * n
    ensures lo <= sum / n <= hi
  {
    var q := sum / n;
    assert (q - lo) * n == sum - lo * n >= 0.0;
    assert (hi - q) * n == hi * n - sum >= 0.0;
  }

  /** An average of values in `lo..hi` lies in `lo..hi`; with no rows it is 0. */
  lemma AverageBounds<R>(rows: seq<R>, val: R -> int, lo: int, hi: int)
    requires forall i :: 0 <= i < |rows| ==> lo <= val(rows[i]) <= hi
    requires rows != [] || lo <= 0 <= hi
    ensures lo as real <= Average(rows, val) <= hi as real
  {
    if rows != [] {
      SumBounds(rows, val, lo, hi);
      QuotientBounds(SumOf(rows, val) as real, |rows| as real, lo as real, hi as real);
    }
  }

  // ---------------------------------------------------------------- queries

  /** A derived `findBy…` run against `table`. */
  function Find<R(==,!new)>(table: Table<R>, keep: R -> bool, pageable: Pageable): (found: Attempt<seq<R>>)
    ensures found.Returned? <==> table.fault.None?
    ensures found.Threw? ==> found.cause == table.fault.value
    ensures found.Returned? ==> Lists(found.value, table.rows, keep, pageable)
  {
    if table.fault.Some? then Threw(table.fault.value) else Returned(PageOf(Where(table.rows, keep), pageable))
  }

  /** The rows an unpaged finder yields are exactly the stored rows the filter keeps. */
  lemma FindMembers<R(!new)>(table: Table<R>, keep: R -> bool, x: R)
    requires table.fault.None?
    ensures x in Find(table, keep, Unpaged).value <==> x in table.rows && keep(x)
  {
    WhereMembers(table.rows, keep, x);
  }

  /** A derived `countBy…`: how many rows the filter keeps. */
  function Count<R(==,!new)>(table: Table<R>, keep: R -> bool): (count: Attempt<int>)
    ensures count.Returned? <==> table.fault.None?
    ensures count.Threw? ==> count.cause == table.fault.value
    ensures count.Returned? ==> count.value == |Find(table, keep, Unpaged).value|
  {
    if table.fault.Some? then Threw(table.fault.value) else Returned(|Where(table.rows, keep)|)
  }

  /** R2DBC's `one()` for a `suspend` finder returning `R?`: no match gives null,
      one match gives that row, more than one throws. */
  function FindOne<R(==,!new)>(table: Table<R>, keep: R -> bool): (found: Attempt<Option<R>>)
    ensures found.Returned? <==> table.fault.None? && Count(table, keep).value <= 1
    ensures found.Returned? && found.value.Some? ==> found.value.value in table.rows && keep(found.value.value)
    ensures found.Returned? && found.value.None? ==> forall x :: x in table.rows ==> !keep(x)
    ensures table.fault.None? && found.Threw? ==> found.cause == IncorrectResultSize(Count(table, keep).value)
  {
    if table.fault.Some? then Threw(table.fault.value)
    else
      var matching := Where(table.rows, keep);
      if |matching| == 0 then
        assert forall x :: x in table.rows ==> !keep(x) by {
          forall x | x in table.rows ensures !keep(x) { WhereMembers(table.rows, keep, x); }
        }
        Returned(None)
      else if |matching| == 1 then
        WhereMembers(table.rows, keep, matching[0]);
        Returned(Some(matching[0]))
      else Threw(IncorrectResultSize(|matching|))
  }

  // ---------------------------------------------------------------- keys

  /** Key order on records: both have keys, the first one smaller. */
  function KeyBefore<R>(idOf: R -> Option<int>): (R, R) -> bool
  {
    (a, b) => idOf(a).Some? && idOf(b).Some? && idOf(a).value < idOf(b).value
  }

  /** The primary-key invariant: every stored row carries a key below `nextId`, and
      keys ascend in table order (so no two rows share one). */
  ghost predicate KeysAssigned<R>(table: Table<R>, idOf: R -> Option<int>)
  {
    && (forall i :: 0 <= i < |table.rows| ==> idOf(table.rows[i]).Some? && idOf(table.rows[i]).value < table.nextId)
    && (forall i, j :: 0 <= i < j < |table.rows| ==> KeyBefore(idOf)(table.rows[i], table.rows[j]))
  }

  /** Removing rows keeps the key invariant. */
  lemma RemovalKeepsKeys<R(!new)>(table: Table<R>, keep: R -> bool, idOf: R -> Option<int>)
    requires KeysAssigned(table, idOf)
    ensures KeysAssigned(table.(rows := Where(table.rows, keep)), idOf)
  {
    var kept := Where(table.rows, keep);
    WhereKeepsOrder(table.rows, keep, KeyBefore(idOf));
    forall i | 0 <= i < |kept| ensures idOf(kept[i]).Some? && idOf(kept[i]).value < table.nextId {
      WhereMembers(table.rows, keep, kept[i]);
    }
  }

  /** Rows with ascending keys are pairwise distinct. */
  lemma KeysDistinguishRows<R>(table: Table<R>, idOf: R -> Option<int>, i: int, j: int)
    requires KeysAssigned(table, idOf)
    requires 0 <= i < |table.rows| && 0 <= j < |table.rows| && i != j
    ensures table.rows[i] != table.rows[j]
  {
    if i < j {
      assert KeyBefore(idOf)(table.rows[i], table.rows[j]);
    } else {
      assert KeyBefore(idOf)(table.rows[j], table.rows[i]);
    }
  }

  /** `rows` with every row keyed like `record` replaced by `record`. */
  function Replace<R(==,!new)>(rows: seq<R>, record: R, idOf: R -> Option<int>): (replaced: seq<R>)
    ensures |replaced| == |rows|
    ensures forall x :: x in replaced ==> x == record || x in rows
  {
    seq(|rows|, i requires 0 <= i < |rows| => if idOf(rows[i]) == idOf(record) then record else rows[i])
  }

  /** Under the key invariant, an update by key replaces exactly the one row holding
      that key and leaves every other row where it was. */
  lemma ReplaceChangesOneRow<R(!new)>(table: Table<R>, record: R, idOf: R -> Option<int>, k: int)
    requires KeysAssigned(table, idOf)
    requires 0 <= k < |table.rows| && idOf(table.rows[k]) == idOf(record)
    ensures Replace(table.rows, record, idOf) == table.rows[k := record]
  {
    var replaced := Replace(table.rows, record, idOf);
    forall i | 0 <= i < |table.rows| && i != k ensures replaced[i] == table.rows[i] {
      if i < k {
        assert KeyBefore(idOf)(table.rows[i], table.rows[k]);
      } else {
        assert KeyBefore(idOf)(table.rows[k], table.rows[i]);
      }
    }
  }

  // ---------------------------------------------------------------- streams

  /** A cold `Flow` returned by a finder: it remembers the repository it came from
      and the query to run, and touches storage only when it is collected. */
  datatype Flow<!R(==,!new), T> = Flow(source: CrudRepository<R>, query: Table<R> -> Attempt<seq<T>>)

  /** Collecting a flow (`toList()`): runs its query on the table as it is now. */
  function Collect<R(==,!new), T>(flow: Flow<R, T>): Attempt<seq<T>>
    reads flow.source
  {
    flow.query(flow.source.table)
  }

  // ---------------------------------------------------------------- repository

  /** A `CoroutineCrudRepository<R, Int>` over one table, whose rows it updates in place.
      `idOf` reads a record's `@Id` and `withId` sets it. */
  class CrudRepository<R(==,!new)> {
    var table: Table<R>

    constructor (table: Table<R>)
      ensures this.table == table
    {
      this.table := table;
    }

    /** `save(record)`: a record without a key is inserted under the next key; a
        record with a key replaces the row holding that key, and throws when no
        row does. Returns the stored record. */
    method Save(record: R, idOf: R -> Option<int>, withId: (R, int) -> R) returns (saved: Attempt<R>)
      requires forall r, k :: idOf(withId(r, k)) == Some(k)
      requires KeysAssigned(table, idOf)
      modifies this
      ensures KeysAssigned(table, idOf)
      ensures old(table.fault).Some? ==> saved == Threw(old(table.fault.value)) && table == old(table)
      ensures old(table.fault).None? && idOf(record).None? ==>
        && saved == Returned(withId(record, old(table.nextId)))
        && table == old(table).(rows := old(table.rows) + [saved.value], nextId := old(table.nextId) + 1)
      ensures old(table.fault).None? && idOf(record).Some? ==>
        if exists i :: 0 <= i < |old(table.rows)| && idOf(old(table.rows)[i]) == idOf(record) then
          saved == Returned(record) && table == old(table).(rows := Replace(old(table.rows), record, idOf))
        else
          saved == Threw(RowNotFound(idOf(record).value)) && table == old(table)
    {
      if table.fault.Some? {
        saved := Threw(table.fault.value);
      } else if idOf(record).None? {
        var stored := withId(record, table.nextId);
        table := table.(rows := table.rows + [stored], nextId := table.nextId + 1);
        saved := Returned(stored);
      } else if exists i :: 0 <= i < |table.rows| && idOf(table.rows[i]) == idOf(record) {
        table := table.(rows := Replace(table.rows, record, idOf));
        saved := Returned(record);
      } else {
        saved := Threw(RowNotFound(idOf(record).value));
      }
    }

    /** A derived `deleteBy…`: removes exactly the rows the filter keeps and returns how many. */
    method DeleteWhere(keep: R -> bool) returns (removed: Attempt<int>)
      modifies this
      ensures old(table.fault).Some? ==> removed == Threw(old(table.fault.value)) && table == old(table)
      ensures old(table.fault).None? ==>
        && removed == Returned(|Where(old(table.rows), keep)|)
        && table == old(table).(rows := Where(old(table.rows), Not(keep)))
    {
      if table.fault.Some? {
        removed := Threw(table.fault.value);
      } else {
        removed := Returned(|Where(table.rows, keep)|);
        table := table.(rows := Where(table.rows, Not(keep)));
      }
    }

    /** `deleteAll()`: removes every row; keys are not reused. */
    method DeleteAll() returns (done: Attempt<()>)
      modifies this
      ensures old(table.fault).Some? ==> done == Threw(old(table.fault.value)) && table == old(table)
      ensures old(table.fault).None? ==> done == Returned(()) && table == old(table).(rows := [])
    {
      if table.fault.Some? {
        done := Threw(table.fault.value);
      } else {
        table := table.(rows := []);
        done := Returned(());
      }
    }
  }
}
