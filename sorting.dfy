/** The comparator `sortTable` hands to `Array.prototype.sort`, and the sort
    itself. A pair of cells compares numerically when both are numeric and as
    text otherwise, times the direction (+1 ascending, -1 descending); an
    absent cell counts as "". */
module Sorting {
  import opened Csv

  predicate IsDigit(c: char) {
    '0' <= c <= '9'
  }

  predicate AllDigits(s: string) {
    forall i :: 0 <= i < |s| ==> IsDigit(s[i])
  }

  /** The numeric test `!isNaN(value)`, modelled as an optionally signed
      decimal integer literal. */
  predicate IsNumeric(s: string): (b: bool)
    ensures b ==> s != [] && forall i :: 0 < i < |s| ==> IsDigit(s[i])
    ensures AllDigits(s) ==> (b <==> s != [])
    ensures b && !IsDigit(s[0]) ==> |s| > 1 && (s[0] == '-' || s[0] == '+')
  {
    if |s| > 0 && (s[0] == '-' || s[0] == '+') then |s| > 1 && AllDigits(s[1..])
    else |s| > 0 && AllDigits(s)
  }

  function DigitsValue(s: string): nat
    requires AllDigits(s)
  {
    if s == [] then 0
    else DigitsValue(s[..|s| - 1]) * 10 + (s[|s| - 1] as int - '0' as int)
  }

  /** `parseFloat(value)` on a numeric cell. */
  function NumValue(s: string): (v: int)
    requires IsNumeric(s)
    ensures IsDigit(s[0]) ==> v >= 0
    ensures s[0] == '+' ==> v == NumValue(s[1..])
    ensures s[0] == '-' ==> v == -NumValue(s[1..])
  {
    if s[0] == '-' then -(DigitsValue(s[1..]) as int)
    else if s[0] == '+' then DigitsValue(s[1..])
    else DigitsValue(s)
  }

  /** Text order, standing in for `localeCompare`: lexicographic by code
      point, a prefix first; the result is -1, 0 or 1 and 0 only for equal
      strings. */
  function LexCompare(a: string, b: string): (r: int)
    ensures -1 <= r <= 1
    ensures r == 0 <==> a == b
  {
    if a == [] then (if b == [] then 0 else -1)
    else if b == [] then 1
    else if a[0] < b[0] then -1
    else if a[0] > b[0] then 1
    else
      var r := LexCompare(a[1..], b[1..]);
      assert a == [a[0]] + a[1..] && b == [b[0]] + b[1..];
      r
  }

  /** Swapping the arguments of the text order negates it. */
  lemma {:induction false} LexAntisymmetric(a: string, b: string)
    ensures LexCompare(a, b) == -LexCompare(b, a)
  {
    if a != [] && b != [] && a[0] == b[0] {
      LexAntisymmetric(a[1..], b[1..]);
    }
  }

  /** The text order is transitive. */
  lemma {:induction false} LexTransitive(a: string, b: string, c: string)
    requires LexCompare(a, b) <= 0 && LexCompare(b, c) <= 0
    ensures LexCompare(a, c) <= 0
  {
    if a != [] && b != [] && c != [] && a[0] == b[0] && b[0] == c[0] {
      LexTransitive(a[1..], b[1..], c[1..]);
    }
  }

  /** The comparator on two cell values. */
  function CompareCells(a: Cell, b: Cell, direction: int): (r: int)
    ensures direction == 1 || direction == -1 ==>
      (r == 0 <==> if IsNumeric(a) && IsNumeric(b) then NumValue(a) == NumValue(b) else a == b)
  {
    (if IsNumeric(a) && IsNumeric(b) then NumValue(a) - NumValue(b) else LexCompare(a, b)) * direction
  }

  /** `row[column] || ""`. */
  function Key(row: Row, column: nat): (k: Cell)
    ensures column < |row| ==> k == row[column]
    ensures column >= |row| ==> k == ""
  {
    if column < |row| then row[column] else ""
  }

  /** The comparator on two rows: their cells in `column`, "" when absent;
      rows that agree there are tied. */
  function CompareRows(a: Row, b: Row, column: nat, direction: int): (r: int)
    ensures Key(a, column) == Key(b, column) ==> r == 0
  {
    CompareCells(Key(a, column), Key(b, column), direction)
  }

  /** Whichever branch the comparator takes, swapping its arguments negates
      it, so it never says both "a after b" and "b after a". */
  lemma CompareAntisymmetric(a: Cell, b: Cell, direction: int)
    ensures CompareCells(a, b, direction) == -CompareCells(b, a, direction)
  {
    LexAntisymmetric(a, b);
    var raw := if IsNumeric(a) && IsNumeric(b) then NumValue(a) - NumValue(b) else LexCompare(a, b);
    var rev := if IsNumeric(b) && IsNumeric(a) then NumValue(b) - NumValue(a) else LexCompare(b, a);
    assert rev == -raw;
    NegateTimes(raw, direction);
  }

  lemma NegateTimes(x: int, y: int)
    ensures (-x) * y == -(x * y)
  {
  }

  /** Every neighbouring pair is in comparator order. */
  ghost predicate AdjacentOrdered(rows: seq<Row>, column: nat, direction: int) {
    forall k :: 0 < k < |rows| ==> CompareRows(rows[k - 1], rows[k], column, direction) <= 0
  }

  /** The neighbouring pairs among the first `n` rows are in comparator order. */
  ghost predicate OrderedPrefix(rows: seq<Row>, n: nat, column: nat, direction: int) {
    forall k :: 0 < k < n && k < |rows| ==> CompareRows(rows[k - 1], rows[k], column, direction) <= 0
  }

  /** `rows.sort(comparator)`, as a stable insertion sort: a permutation of
      the rows in which every neighbouring pair is in comparator order. */
  method SortRows(rows: seq<Row>, column: nat, direction: int) returns (sorted: seq<Row>)
    ensures multiset(sorted) == multiset(rows)
    ensures AdjacentOrdered(sorted, column, direction)
  {
    sorted := rows;
    var i := 0;
    while i < |sorted|
      invariant 0 <= i <= |sorted| == |rows|
      invariant multiset(sorted) == multiset(rows)
      invariant OrderedPrefix(sorted, i, column, direction)
    {
      sorted := Insert(sorted, i, column, direction);
      i := i + 1;
    }
  }

  /** Moves `rows[i]` left past every row the comparator puts after it, so
      that the first `i + 1` rows are in order; nothing else moves. */
  method Insert(rows: seq<Row>, i: nat, column: nat, direction: int) returns (r: seq<Row>)
    requires i < |rows|
    requires OrderedPrefix(rows, i, column, direction)
    ensures |r| == |rows| && multiset(r) == multiset(rows)
    ensures OrderedPrefix(r, i + 1, column, direction)
    ensures r[i + 1..] == rows[i + 1..]
  {
    r := rows;
    var j := i;
    while j > 0 && CompareRows(r[j - 1], r[j], column, direction) > 0
      invariant 0 <= j <= i < |r| == |rows|
      invariant multiset(r) == multiset(rows)
      invariant r[i + 1..] == rows[i + 1..]
      invariant OrderedPrefix(r, j, column, direction)
      invariant forall k :: j < k <= i ==> CompareRows(r[k - 1], r[k], column, direction) <= 0
      invariant 0 < j < i ==> CompareRows(r[j - 1], r[j + 1], column, direction) <= 0
    {
      SwapStep(r, i, j, column, direction);
      SwapMultiset(r, j);
      r := r[j - 1 := r[j]][j := r[j - 1]];
      j := j - 1;
    }
  }

  /** One step of the insertion: swapping an out-of-order neighbour pair at
      `j - 1`, `j` moves the gap in the ordering one place to the left. */
  lemma SwapStep(r: seq<Row>, i: nat, j: nat, column: nat, direction: int)
    requires 0 < j <= i < |r|
    requires OrderedPrefix(r, j, column, direction)
    requires forall k :: j < k <= i ==> CompareRows(r[k - 1], r[k], column, direction) <= 0
    requires j < i ==> CompareRows(r[j - 1], r[j + 1], column, direction) <= 0
    requires CompareRows(r[j - 1], r[j], column, direction) > 0
    ensures var t := r[j - 1 := r[j]][j := r[j - 1]];
      OrderedPrefix(t, j - 1, column, direction) &&
      (forall k :: j - 1 < k <= i ==> CompareRows(t[k - 1], t[k], column, direction) <= 0) &&
      (0 < j - 1 < i ==> CompareRows(t[j - 2], t[j], column, direction) <= 0) &&
      t[i + 1..] == r[i + 1..]
  {
    var t := r[j - 1 := r[j]][j := r[j - 1]];
    CompareAntisymmetric(Key(r[j - 1], column), Key(r[j], column), direction);
    assert CompareRows(t[j - 1], t[j], column, direction) <= 0;
    forall k | j - 1 < k <= i ensures CompareRows(t[k - 1], t[k], column, direction) <= 0 {
      if k > j + 1 {
        assert t[k - 1] == r[k - 1] && t[k] == r[k];
      }
    }
    if 0 < j - 1 {
      assert CompareRows(r[j - 2], r[j - 1], column, direction) <= 0;
    }
  }

  /** Swapping two neighbours keeps the multiset of rows. */
  lemma SwapMultiset(s: seq<Row>, j: nat)
    requires 0 < j < |s|
    ensures multiset(s[j - 1 := s[j]][j := s[j - 1]]) == multiset(s)
  {
    var t := s[j - 1 := s[j]][j := s[j - 1]];
    assert s == s[..j - 1] + [s[j - 1], s[j]] + s[j + 1..];
    assert t == s[..j - 1] + [s[j], s[j - 1]] + s[j + 1..];
  }

  /** In a numeric column the neighbour order spreads to every pair:
      ascending by value for +1, descending for -1. */
  lemma {:induction false} NumericColumnSorted(rows: seq<Row>, column: nat, direction: int, i: nat, j: nat)
    requires direction == 1 || direction == -1
    requires AdjacentOrdered(rows, column, direction)
    requires forall k :: 0 <= k < |rows| ==> IsNumeric(Key(rows[k], column))
    requires i <= j < |rows|
    ensures direction == 1 ==> NumValue(Key(rows[i], column)) <= NumValue(Key(rows[j], column))
    ensures direction == -1 ==> NumValue(Key(rows[i], column)) >= NumValue(Key(rows[j], column))
    decreases j - i
  {
    if i < j {
      NumericColumnSorted(rows, column, direction, i + 1, j);
      assert CompareRows(rows[i], rows[i + 1], column, direction) <= 0;
    }
  }

  /** In a column with no numeric cell the neighbour order spreads to every
      pair: ascending text order for +1, descending for -1. */
  lemma {:induction false} TextColumnSorted(rows: seq<Row>, column: nat, direction: int, i: nat, j: nat)
    requires direction == 1 || direction == -1
    requires AdjacentOrdered(rows, column, direction)
    requires forall k :: 0 <= k < |rows| ==> !IsNumeric(Key(rows[k], column))
    requires i <= j < |rows|
    ensures direction == 1 ==> LexCompare(Key(rows[i], column), Key(rows[j], column)) <= 0
    ensures direction == -1 ==> LexCompare(Key(rows[j], column), Key(rows[i], column)) <= 0
    decreases j - i
  {
    if i < j {
      TextColumnSorted(rows, column, direction, i + 1, j);
      var a, b, c := Key(rows[i], column), Key(rows[i + 1], column), Key(rows[j], column);
      assert CompareRows(rows[i], rows[i + 1], column, direction) <= 0;
      if direction == 1 {
        LexTransitive(a, b, c);
      } else {
        LexAntisymmetric(a, b);
        LexTransitive(c, b, a);
      }
    }
  }

  /** Numbers are compared as numbers: "2" goes before "10" ascending,
      although as text "10" comes first. */
  lemma NumericBeforeText()
    ensures CompareCells("2", "10", 1) < 0
    ensures LexCompare("10", "2") < 0
  {
    assert IsNumeric("2") && IsNumeric("10");
    assert DigitsValue("1") == 1;
    assert NumValue("10") == 10;
  }
}
