/** The table session: the four pieces of state of the page (`dataset`,
    `filteredData`, `sortState`, `columnFilters`), the operations that update
    them, and what `renderTable` is given and shows of them. */
module Viewer {
  import opened Text
  import opened Csv
  import opened Filters
  import opened Sorting

  datatype Option<T> = None | Some(value: T)

  /** A value stored in `sortState`: "asc", "desc", or null (what a column
      is reset to when another column is sorted). A column never sorted has no
      entry at all. */
  datatype SortMark = Asc | Desc | Cleared

  /** `sortState[column] === "asc" ? "desc" : "asc"`: only an ascending column
      turns descending; descending, cleared and never-sorted columns turn
      ascending. */
  function Toggled(state: map<nat, SortMark>, column: nat): (m: SortMark)
    ensures m != Cleared
    ensures m == Desc <==> column in state && state[column] == Asc
  {
    if column in state && state[column] == Asc then Desc else Asc
  }

  /** The comparator's sign: +1 for ascending, -1 otherwise. */
  function Direction(m: SortMark): (d: int)
    ensures d == 1 || d == -1
    ensures d == 1 <==> m == Asc
  {
    if m == Asc then 1 else -1
  }

  /** The sort state after `sortTable(column)`: every column already in the
      state other than `column` is cleared, `column` is toggled, and no other
      key is added. */
  function SortStateAfter(state: map<nat, SortMark>, column: nat): (next: map<nat, SortMark>)
    ensures next.Keys == state.Keys + {column}
    ensures next[column] == Toggled(state, column)
    ensures forall k :: k in next && k != column ==> next[k] == Cleared
  {
    map k | k in state.Keys + {column} :: if k == column then Toggled(state, column) else Cleared
  }

  /** At most one column shows a sort direction. */
  ghost predicate AtMostOneMarked(state: map<nat, SortMark>) {
    forall a, b :: a in state && b in state && state[a] != Cleared && state[b] != Cleared ==> a == b
  }

  /** After a sort exactly one column, the sorted one, carries a direction. */
  lemma SingleIndicator(state: map<nat, SortMark>, column: nat)
    ensures AtMostOneMarked(SortStateAfter(state, column))
    ensures forall k :: k in SortStateAfter(state, column) ==>
      (SortStateAfter(state, column)[k] != Cleared <==> k == column)
  {
  }

  /** Sorting the same column again flips its direction; from any state but
      ascending, three sorts in a row give ascending, descending, ascending. */
  lemma SortToggles(state: map<nat, SortMark>, column: nat)
    requires column !in state || state[column] != Asc
    ensures SortStateAfter(state, column)[column] == Asc
    ensures SortStateAfter(SortStateAfter(state, column), column)[column] == Desc
    ensures SortStateAfter(SortStateAfter(SortStateAfter(state, column), column), column)[column] == Asc
  {
  }

  /** The header glyph of column `index`. */
  function Icon(state: map<nat, SortMark>, index: nat): (g: char)
    ensures g == '\U{25B2}' <==> index in state && state[index] == Asc
    ensures g == '\U{25BC}' <==> index in state && state[index] == Desc
    ensures g == '\U{21C5}' <==> index !in state || state[index] == Cleared
  {
    if index in state && state[index] == Asc then '\U{25B2}'
    else if index in state && state[index] == Desc then '\U{25BC}'
    else
      assert index in state ==> state[index] == Cleared;
      '\U{21C5}'
  }

  /** `columnFilters[index] || ""`: the text put back into a column's filter box. */
  function FilterValue(filters: map<nat, string>, index: nat): (v: string)
    ensures index in filters ==> v == filters[index]
    ensures index !in filters ==> v == ""
  {
    if index in filters then filters[index] else ""
  }

  /** What `renderTable(data)` shows: nothing for no data; otherwise the
      first row as header, one glyph and one filter box per header cell, and
      every remaining row verbatim, in order. */
  datatype View = Blank | Grid(header: Row, icons: seq<char>, filterValues: seq<string>, body: seq<Row>)

  function RenderTable(data: seq<Row>, state: map<nat, SortMark>, filters: map<nat, string>): (v: View)
    ensures v.Blank? <==> data == []
    ensures v.Grid? ==> [v.header] + v.body == data
    ensures v.Grid? ==> |v.icons| == |v.header| && |v.filterValues| == |v.header|
    ensures v.Grid? ==> forall i :: 0 <= i < |v.icons| ==> v.icons[i] == Icon(state, i) && v.filterValues[i] == FilterValue(filters, i)
  {
    if data == [] then Blank
    else
      var header := data[0];
      Grid(header,
           seq(|header|, i requires 0 <= i < |header| => Icon(state, i)),
           seq(|header|, i requires 0 <= i < |header| => FilterValue(filters, i)),
           data[1..])
  }

  /** Right after `sortTable(column)` the header shows an arrow over
      `column` alone, ▲ when it went ascending and ▼ when descending. */
  lemma RenderAfterSort(data: seq<Row>, state: map<nat, SortMark>, filters: map<nat, string>, column: nat)
    requires data != []
    ensures var v := RenderTable(data, SortStateAfter(state, column), filters);
      forall i :: 0 <= i < |v.icons| ==>
        (v.icons[i] != '\U{21C5}' <==> i == column) &&
        (i == column ==> (v.icons[i] == '\U{25B2}' <==> Toggled(state, column) == Asc))
  {
  }

  /** Right after a load every header shows ⇅ and every filter box is empty. */
  lemma RenderAfterLoad(data: seq<Row>)
    requires data != []
    ensures var v := RenderTable(data, map[], map[]);
      v.header == data[0] && v.body == data[1..] &&
      forall i :: 0 <= i < |v.icons| ==> v.icons[i] == '\U{21C5}' && v.filterValues[i] == ""
  {
  }

  /** Rows drawn from another sequence are no more than it has, and each is
      one of its rows. */
  lemma SubMultisetSize(a: seq<Row>, b: seq<Row>)
    ensures multiset(a) <= multiset(b) ==> |a| <= |b| && forall r :: r in a ==> r in b
  {
    if multiset(a) <= multiset(b) {
      assert |multiset(b)| == |multiset(a)| + |multiset(b) - multiset(a)|;
      forall r | r in a ensures r in b {
        assert r in multiset(a);
      }
    }
  }

  /** The page's table state. */
  class Session {
    var dataset: seq<Row>
    var filteredData: seq<Row>
    var sortState: map<nat, SortMark>
    var columnFilters: map<nat, string>

    /** The dataset is empty (nothing loaded yet) or a parsed table; the
        view holds only data rows of the dataset (a filtered subsequence,
        possibly reordered by a sort), and at most one column has a sort
        direction. */
    ghost predicate Valid(): (b: bool)
      reads this
      ensures b ==> |filteredData| <= |DataRows(dataset)|
      ensures b ==> forall r :: r in filteredData ==> r in DataRows(dataset)
      ensures b && dataset != [] ==> |dataset[0]| >= 1
    {
      SubMultisetSize(filteredData, DataRows(dataset));
      (dataset == [] || WellFormed(dataset)) &&
      multiset(filteredData) <= multiset(DataRows(dataset)) &&
      AtMostOneMarked(sortState)
    }

    /** The page's initial state: everything empty. */
    constructor ()
      ensures Valid()
      ensures dataset == [] && filteredData == [] && sortState == map[] && columnFilters == map[]
    {
      dataset, filteredData := [], [];
      sortState, columnFilters := map[], map[];
    }

    /** `[dataset[0], ...filteredData]`, what each filter and sort passes to
        `renderTable`. With nothing loaded there is no header row, and the
        page's `renderTable` fails on the missing header. */
    function Projection(): (p: Option<seq<Row>>)
      reads this
      ensures p.None? <==> dataset == []
      ensures p.Some? ==> |p.value| == |filteredData| + 1 && p.value[0] == dataset[0] && p.value[1..] == filteredData
    {
      if dataset == [] then None else Some([dataset[0]] + filteredData)
    }

    /** What the page shows after an operation: the header of the dataset,
        never filtered or sorted, over exactly the current view. */
    function Render(): (v: Option<View>)
      reads this
      ensures v.None? <==> dataset == []
      ensures v.Some? ==> v.value.Grid? && v.value.header == dataset[0] && v.value.body == filteredData
    {
      match Projection()
      case None => None
      case Some(rows) => Some(RenderTable(rows, sortState, columnFilters))
    }

    /** The `onload` body of `handleFile`: parse the text, show every data
        row, and forget all column filters and sort directions. */
    method Load(text: string)
      modifies this
      ensures dataset == ParseCSV(text)
      ensures filteredData == DataRows(dataset)
      ensures columnFilters == map[] && sortState == map[]
      ensures Valid()
      ensures Projection() == Some(dataset)
    {
      dataset := ParseCSV(text);
      filteredData := DataRows(dataset);
      columnFilters := map[];
      sortState := map[];
    }

    /** `filterTable(query)`: the view becomes the data rows with some cell
        matching, computed from the dataset alone. */
    method FilterGlobal(query: string)
      requires Valid()
      modifies this`filteredData
      ensures filteredData == GlobalFilter(dataset, query)
      ensures Valid()
    {
      filteredData := GlobalFilter(dataset, query);
    }

    /** The column filter box's input handler: remember the query, then
        `filterByColumn(column, query)`, whose view is the data rows whose
        cell in that column is present, non-empty and matching, computed from
        the dataset alone and ignoring every other saved query. */
    method FilterColumn(column: nat, query: string)
      requires Valid()
      modifies this`columnFilters, this`filteredData
      ensures columnFilters == old(columnFilters)[column := query]
      ensures filteredData == ColumnFilter(dataset, column, query)
      ensures Valid()
    {
      columnFilters := columnFilters[column := query];
      filteredData := ColumnFilter(dataset, column, query);
    }

    /** `sortTable(column)`: clear every other known column, toggle this one,
        then sort the current view by it in the new direction. */
    method Sort(column: nat)
      requires Valid()
      modifies this`sortState, this`filteredData
      ensures sortState == SortStateAfter(old(sortState), column)
      ensures multiset(filteredData) == multiset(old(filteredData))
      ensures AdjacentOrdered(filteredData, column, Direction(sortState[column]))
      ensures Valid()
    {
      var keys := sortState.Keys;
      while keys != {}
        invariant keys <= sortState.Keys == old(sortState).Keys
        invariant forall k :: k in keys ==> sortState[k] == old(sortState)[k]
        invariant forall k :: k in sortState && k !in keys ==>
          sortState[k] == if k == column then old(sortState)[k] else Cleared
        invariant filteredData == old(filteredData)
        decreases keys
      {
        var k :| k in keys;
        if k != column {
          sortState := sortState[k := Cleared];
        }
        keys := keys - {k};
      }
      var mark := Toggled(sortState, column);
      sortState := sortState[column := mark];
      assert sortState == SortStateAfter(old(sortState), column);
      SingleIndicator(old(sortState), column);
      filteredData := SortRows(filteredData, column, Direction(mark));
    }
  }

  /** A client's view of the session: after a load the page shows the
      whole table, and sorting one column three times goes ascending,
      descending, ascending. */
  method SortThreeTimes(s: Session, text: string)
    modifies s
  {
    s.Load(text);
    assert s.Render() == Some(RenderTable(s.dataset, map[], map[]));
    s.Sort(0);
    assert s.sortState[0] == Asc;
    s.Sort(0);
    assert s.sortState[0] == Desc;
    s.Sort(0);
    assert s.sortState[0] == Asc;
  }

  /** A client's view of the session: a new load forgets every saved column
      query and every sort direction. */
  method ReloadClears(s: Session, other: string)
    requires s.Valid()
    modifies s
  {
    s.FilterColumn(0, "x");
    s.Sort(1);
    assert s.columnFilters[0] == "x" && s.sortState[1] != Cleared;
    s.Load(other);
    assert s.sortState == map[] && s.columnFilters == map[];
  }
}
