/** The two row filters, `filterTable` (any cell matches) and
    `filterByColumn` (the cell of one column matches). Both recompute the view
    from the data rows of the full dataset with a case-insensitive substring
    test, and neither looks at the other's query. */
module Filters {
  import opened Text
  import opened Csv

  /** `dataset.slice(1)`: every row but the header. */
  function DataRows(dataset: seq<Row>): (rows: seq<Row>)
    ensures dataset == [] ==> rows == []
    ensures dataset != [] ==> dataset == [dataset[0]] + rows
  {
    if dataset == [] then [] else dataset[1..]
  }

  /** `s.filter(keep)`. */
  function Filter<T>(s: seq<T>, keep: T -> bool): (r: seq<T>)
    ensures |r| <= |s|
    ensures forall k :: 0 <= k < |r| ==> keep(r[k])
  {
    if s == [] then []
    else if keep(s[0]) then [s[0]] + Filter(s[1..], keep)
    else Filter(s[1..], keep)
  }

  /** `a` is `b` with some elements left out and the rest in their order. */
  predicate IsSubsequence<T(==)>(a: seq<T>, b: seq<T>)
    decreases |b|
  {
    if a == [] then true
    else if b == [] then false
    else (a[0] == b[0] && IsSubsequence(a[1..], b[1..])) || IsSubsequence(a, b[1..])
  }

  /** The filter keeps the order of what it keeps. */
  lemma {:induction false} FilterIsSubsequence<T>(s: seq<T>, keep: T -> bool)
    ensures IsSubsequence(Filter(s, keep), s)
  {
    if s != [] {
      FilterIsSubsequence(s[1..], keep);
      if keep(s[0]) {
        assert ([s[0]] + Filter(s[1..], keep))[1..] == Filter(s[1..], keep);
      }
    }
  }

  /** The filter keeps every copy of an element that passes and no copy of
      one that does not. */
  lemma {:induction false} FilterCount<T>(s: seq<T>, keep: T -> bool, x: T)
    ensures multiset(Filter(s, keep))[x] == if keep(x) then multiset(s)[x] else 0
  {
    if s != [] {
      FilterCount(s[1..], keep, x);
      assert s == [s[0]] + s[1..];
      assert multiset(s) == multiset{s[0]} + multiset(s[1..]);
      if keep(s[0]) {
        assert multiset([s[0]] + Filter(s[1..], keep)) == multiset{s[0]} + multiset(Filter(s[1..], keep));
      }
    }
  }

  /** What the filter returns is drawn from what it was given. */
  lemma FilterSubMultiset<T>(s: seq<T>, keep: T -> bool)
    ensures multiset(Filter(s, keep)) <= multiset(s)
  {
    forall x ensures multiset(Filter(s, keep))[x] <= multiset(s)[x] {
      FilterCount(s, keep, x);
    }
  }

  /** An element is in the result exactly when it is in the input and passes. */
  lemma FilterMembers<T>(s: seq<T>, keep: T -> bool, x: T)
    ensures x in Filter(s, keep) <==> x in s && keep(x)
  {
    FilterCount(s, keep, x);
  }

  /** When everything passes, the filter returns its input unchanged. */
  lemma {:induction false} FilterKeepsAll<T>(s: seq<T>, keep: T -> bool)
    requires forall k :: 0 <= k < |s| ==> keep(s[k])
    ensures Filter(s, keep) == s
  {
    if s != [] {
      FilterKeepsAll(s[1..], keep);
    }
  }

  /** Filtering a second time with the same test changes nothing. */
  lemma FilterIdempotent<T>(s: seq<T>, keep: T -> bool)
    ensures Filter(Filter(s, keep), keep) == Filter(s, keep)
  {
    FilterKeepsAll(Filter(s, keep), keep);
  }

  /** `cell.toLowerCase().includes(query.toLowerCase())`. */
  predicate CellMatches(cell: Cell, query: string): (m: bool)
    ensures query == "" ==> m
    ensures m ==> |query| <= |cell|
  {
    ContainsEmpty(Lower(cell));
    Contains(Lower(cell), Lower(query))
  }

  /** The test of `filterTable`: `row.some(cell => ...)`. */
  predicate RowMatchesAny(row: Row, query: string): (m: bool)
    ensures query == "" ==> (m <==> row != [])
  {
    assert query == "" && row != [] ==> CellMatches(row[0], query);
    exists j :: 0 <= j < |row| && CellMatches(row[j], query)
  }

  /** The test of `filterByColumn`: the cell exists, is non-empty (a
      JavaScript truthy string) and matches. */
  predicate RowMatchesColumn(row: Row, column: nat, query: string): (m: bool)
    ensures m ==> RowMatchesAny(row, query)
  {
    column < |row| && row[column] != "" && CellMatches(row[column], query)
  }

  /** `filterTable(query)`'s new view. */
  function GlobalFilter(dataset: seq<Row>, query: string): (view: seq<Row>)
    ensures multiset(view) <= multiset(DataRows(dataset))
    ensures forall k :: 0 <= k < |view| ==> RowMatchesAny(view[k], query)
  {
    FilterSubMultiset(DataRows(dataset), row => RowMatchesAny(row, query));
    Filter(DataRows(dataset), row => RowMatchesAny(row, query))
  }

  /** `filterByColumn(column, query)`'s new view. */
  function ColumnFilter(dataset: seq<Row>, column: nat, query: string): (view: seq<Row>)
    ensures multiset(view) <= multiset(DataRows(dataset))
    ensures forall k :: 0 <= k < |view| ==> RowMatchesColumn(view[k], column, query)
    ensures multiset(view) <= multiset(GlobalFilter(dataset, query))
  {
    FilterSubMultiset(DataRows(dataset), row => RowMatchesColumn(row, column, query));
    ColumnWithinGlobal(dataset, column, query);
    Filter(DataRows(dataset), row => RowMatchesColumn(row, column, query))
  }

  /** Every row the column filter keeps, the global filter keeps too. */
  lemma ColumnWithinGlobal(dataset: seq<Row>, column: nat, query: string)
    ensures multiset(Filter(DataRows(dataset), row => RowMatchesColumn(row, column, query))) <=
      multiset(Filter(DataRows(dataset), row => RowMatchesAny(row, query)))
  {
    var rows := DataRows(dataset);
    var inColumn := row => RowMatchesColumn(row, column, query);
    var anywhere := row => RowMatchesAny(row, query);
    forall x ensures multiset(Filter(rows, inColumn))[x] <= multiset(Filter(rows, anywhere))[x] {
      FilterCount(rows, inColumn, x);
      FilterCount(rows, anywhere, x);
    }
  }

  /** A cell matches a query exactly when the lowered query occurs somewhere
      in the lowered cell; upper and lower case are not told apart. */
  lemma CellMatchesIff(cell: Cell, query: string)
    ensures CellMatches(cell, query) <==> exists i :: 0 <= i <= |cell| && IsPrefix(Lower(query), Lower(cell)[i..])
    ensures CellMatches(cell, query) == CellMatches(Lower(cell), Lower(query))
  {
    ContainsIff(Lower(cell), Lower(query));
    LowerIdempotent(cell);
    LowerIdempotent(query);
  }

  /** The global view is the data rows that match, in dataset order, each
      kept as often as it occurs; the header is never in it. */
  lemma GlobalFilterSpec(dataset: seq<Row>, query: string, row: Row)
    ensures IsSubsequence(GlobalFilter(dataset, query), DataRows(dataset))
    ensures multiset(GlobalFilter(dataset, query))[row] ==
      if RowMatchesAny(row, query) then multiset(DataRows(dataset))[row] else 0
  {
    FilterIsSubsequence(DataRows(dataset), row => RowMatchesAny(row, query));
    FilterCount(DataRows(dataset), row => RowMatchesAny(row, query), row);
  }

  /** The column view is the data rows whose cell in that column matches, in
      dataset order, each kept as often as it occurs. */
  lemma ColumnFilterSpec(dataset: seq<Row>, column: nat, query: string, row: Row)
    ensures IsSubsequence(ColumnFilter(dataset, column, query), DataRows(dataset))
    ensures multiset(ColumnFilter(dataset, column, query))[row] ==
      if RowMatchesColumn(row, column, query) then multiset(DataRows(dataset))[row] else 0
  {
    FilterIsSubsequence(DataRows(dataset), row => RowMatchesColumn(row, column, query));
    FilterCount(DataRows(dataset), row => RowMatchesColumn(row, column, query), row);
  }

  /** An empty global query keeps every data row of a parsed table. */
  lemma GlobalEmptyQuery(dataset: seq<Row>)
    requires WellFormed(dataset)
    ensures GlobalFilter(dataset, "") == DataRows(dataset)
  {
    var rows := DataRows(dataset);
    forall k | 0 <= k < |rows| ensures RowMatchesAny(rows[k], "") {
      assert rows[k] == dataset[k + 1];
      ContainsEmpty(Lower(rows[k][0]));
    }
    FilterKeepsAll(rows, row => RowMatchesAny(row, ""));
  }

  /** Even for an empty query, the column view drops exactly the rows whose
      cell in that column is absent or empty. */
  lemma ColumnEmptyQuery(row: Row, column: nat)
    ensures RowMatchesColumn(row, column, "") <==> column < |row| && row[column] != ""
  {
    if column < |row| {
      ContainsEmpty(Lower(row[column]));
    }
  }

  /** Re-running either filter on its own output with the same query leaves
      it unchanged. */
  lemma FiltersIdempotent(dataset: seq<Row>, column: nat, query: string)
    ensures Filter(GlobalFilter(dataset, query), row => RowMatchesAny(row, query)) == GlobalFilter(dataset, query)
    ensures Filter(ColumnFilter(dataset, column, query), row => RowMatchesColumn(row, column, query)) == ColumnFilter(dataset, column, query)
  {
    FilterIdempotent(DataRows(dataset), row => RowMatchesAny(row, query));
    FilterIdempotent(DataRows(dataset), row => RowMatchesColumn(row, column, query));
  }
}
