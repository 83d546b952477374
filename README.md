# Table viewer engine, modelled in Dafny

This project models the in-memory table engine of a single-page CSV viewer
(`app.js`) and proves what it does. The page keeps four pieces of state:

- `dataset`: the parsed table, header row first;
- `filteredData`: the data rows currently shown;
- `sortState`: per column index, "asc", "desc" or null;
- `columnFilters`: per column index, the last text typed in that column's filter box.

Five operations change or read that state:

- `parseCSV` and the file-load handler replace the table;
- `filterTable` (global query) and `filterByColumn` (one column's query) recompute the shown rows;
- `sortTable` updates the sort state and sorts the shown rows;
- `renderTable` shows the header, one glyph per column, and the rows.

Modules, one per part of the engine:

- `Text` (text.dfy): the JavaScript string built-ins the engine uses. These are
  `trim`, one-character `split`, `toLowerCase` and `includes`. `app.js` never calls
  `join`; `Text.Join` is the model's inverse of `split`, used only by `Csv.Unparse`
  to state the parse round trips.
- `Csv` (csv.dfy): `parseCSV`, a writer `Unparse` as its partner, and both round trips.
- `Filters` (filters.dfy): `slice(1)`, `filter` and the two row tests. It proves that
  each view is an order-preserving subsequence of the data rows and keeps exactly
  the matching ones.
- `Sorting` (sorting.dfy): the comparator and the sort. The sort is a stable insertion
  sort standing in for `Array.prototype.sort`. It proves a permutation with every
  neighbouring pair in comparator order, and full order for numeric and for text columns.
- `Viewer` (viewer.dfy): the `Session` class with the four fields and the methods
  `Load`, `FilterGlobal`, `FilterColumn` and `Sort`. It also holds the sort-state
  update, the glyph choice, and the projection `[dataset[0], ...filteredData]`
  that every render is given. Two client methods, `SortThreeTimes` and
  `ReloadClears`, show what a caller can conclude from the contracts alone; they
  have no counterpart in `app.js` and so no row in the table below.

Behaviour of `app.js` worth noting, all of it modelled as written:

- Empty input parses to `[[""]]`, one row with one empty cell, not to an empty table (app.js:15-20).
- The whole text is trimmed once before splitting; cells are not trimmed (app.js:17-19).
- The column filter drops rows whose cell is absent or the empty string, even for an empty query (app.js:148).
- Fields are split on every ",": a comma inside quotes also splits (app.js:19).

## Model

| member | source | states |
|---|---|---|
| Text.TrimStart | app.js:17 | the result is a suffix of the input, everything cut off is whitespace, and it does not start with whitespace |
| Text.IsSpace | app.js:17 | among ASCII characters exactly space and tab through carriage return are whitespace to `trim()`, so commas, letters and digits are never cut |
| Text.TrimEnd | app.js:17 | the result is a prefix of the input, everything cut off is whitespace, and it does not end with whitespace |
| Text.Trim | app.js:17 | `trim()` returns a slice of the input with only whitespace before and after it, and with no whitespace (the ECMAScript WhiteSpace and LineTerminator set) at either end of it; these two facts fix the result uniquely |
| Text.TrimNoop | app.js:17 | text without whitespace at either end is unchanged by `trim()` |
| Text.TrimIdempotent | app.js:17 | trimming twice is the same as trimming once |
| Text.Split | app.js:18-19 | `split(sep)` gives at least one part, no part contains the separator, and parts only hold characters of the input |
| Text.SplitLength | app.js:18-19 | the number of parts is the number of separators plus one |
| Text.SplitJoin | app.js:18-19 | joining the parts of a split with the separator gives back the original text |
| Text.JoinSplit | app.js:18-19 | splitting the join of a non-empty list of separator-free parts gives back exactly those parts |
| Text.LowerChar | app.js:137 | the lowered character is never an upper-case ASCII letter; non-letters are unchanged and letters move by 'a'-'A' |
| Text.Lower | app.js:137 | `toLowerCase()` keeps the length and lowers each character independently |
| Text.LowerIdempotent | app.js:137 | lowering already-lowered text changes nothing |
| Text.Contains | app.js:137 | `includes` can hold only when the query is no longer than the text; `ContainsIff` gives the full substring meaning and `ContainsEmpty` the empty query |
| Text.ContainsIff | app.js:137 | the `includes` scan holds exactly when the query is a prefix of some suffix of the text (both directions) |
| Text.ContainsEmpty | app.js:137 | every text includes the empty string |
| Csv.ParseCSV | app.js:15-20 | the result has one row per line of the trimmed text, at least one row, at least one cell per row, and no cell holds "," or "\n" |
| Csv.ParseRowCount | app.js:15-20 | the number of rows is the number of "\n" in the trimmed text plus one |
| Csv.ParseUnparse | app.js:15-20 | joining the parsed cells with "," and the rows with "\n" gives back the trimmed input |
| Csv.UnparseLines | app.js:18 | the written text of a well-formed table splits on "\n" into exactly its written lines |
| Csv.UnparseParse | app.js:15-20 | a well-formed table whose text has no outer whitespace is parsed back exactly |
| Csv.ParseBlank | app.js:15-20 | empty or all-whitespace input parses to `[[""]]`, not to an empty table |
| Csv.ParseExample | app.js:15-20 | "a,b\n1,2\n3,4" parses to three rows of two cells |
| Filters.DataRows | app.js:135 | `slice(1)` is every row after the header, and nothing for an empty dataset |
| Filters.Filter | app.js:136 | `filter` returns no more elements than it was given, and every kept element passes the test |
| Filters.FilterIsSubsequence | app.js:136 | the filter's result is an order-preserving subsequence of its input |
| Filters.FilterCount | app.js:136 | each passing element is kept as often as it occurs, each failing one never |
| Filters.FilterSubMultiset | app.js:136 | the filter's result is drawn from its input (multiset inclusion) |
| Filters.FilterMembers | app.js:136 | an element is in the result exactly when it is in the input and passes (both directions) |
| Filters.FilterKeepsAll | app.js:136 | when every element passes, the input is returned unchanged |
| Filters.FilterIdempotent | app.js:136 | filtering the result again with the same test changes nothing |
| Filters.CellMatches | app.js:137 | the empty query matches every cell, and a match needs a query no longer than the cell; `CellMatchesIff` states the substring meaning |
| Filters.RowMatchesAny | app.js:137 | with an empty query a row passes exactly when it has a cell; `GlobalFilterSpec` says which rows the view keeps |
| Filters.RowMatchesColumn | app.js:148-149 | a row passing the column test also passes the global test for the same query; `ColumnEmptyQuery` gives the empty query |
| Filters.GlobalFilter | app.js:134-138 | the global view is drawn from the data rows and each of its rows has a matching cell; `GlobalFilterSpec` adds order and multiplicity |
| Filters.ColumnFilter | app.js:144-150 | the column view is drawn from the data rows, each of its rows passes the column test, and it is drawn from the global view of the same query; `ColumnFilterSpec` adds order and multiplicity |
| Filters.CellMatchesIff | app.js:137 | a cell matches exactly when the lowered query occurs in the lowered cell; the match ignores ASCII case on both sides |
| Filters.GlobalFilterSpec | app.js:133-139 | the global view is an ordered subsequence of the data rows holding each row that has a matching cell, as often as it occurs, and no other row |
| Filters.ColumnFilterSpec | app.js:143-150 | the column view is an ordered subsequence of the data rows holding each row whose cell in that column is present, non-empty and matching, and no other row |
| Filters.GlobalEmptyQuery | app.js:136-138 | an empty global query keeps every data row of a parsed table |
| Filters.ColumnEmptyQuery | app.js:146-150 | with an empty query a row passes the column test exactly when its cell exists and is non-empty |
| Filters.FiltersIdempotent | app.js:133-150 | applying either filter's test again to its own view leaves the view unchanged |
| Sorting.LexCompare | app.js:124 | the text order returns -1, 0 or 1, and 0 exactly for equal strings |
| Sorting.LexAntisymmetric | app.js:124 | swapping the arguments of the text order negates it |
| Sorting.LexTransitive | app.js:124 | the text order is transitive |
| Sorting.IsNumeric | app.js:119 | a numeric cell is non-empty with only digits after its first character, which is a digit or a sign followed by more; a digit string is numeric exactly when non-empty |
| Sorting.NumValue | app.js:120-121 | a value without sign is non-negative, "+" keeps and "-" negates the value of the rest |
| Sorting.CompareCells | app.js:119-124 | for direction ±1 the comparator ties exactly when both cells are numeric with equal values, or otherwise are equal text; `CompareAntisymmetric` gives antisymmetry |
| Sorting.CompareRows | app.js:115-125 | rows whose cells in the column are equal, counting an absent cell as "", are tied |
| Sorting.Key | app.js:116-117 | the compared value is the cell when present and "" when the row is too short |
| Sorting.CompareAntisymmetric | app.js:115-125 | the numeric-or-text comparator times the direction is antisymmetric, because both arguments are tested for being numeric |
| Sorting.SortRows | app.js:115-125 | the sorted rows are a permutation of the input, and every neighbouring pair is in comparator order |
| Sorting.Insert | app.js:115-125 | one insertion step: a permutation whose first i+1 rows are in order, with the rows after i untouched |
| Sorting.NumericColumnSorted | app.js:119-122 | in an all-numeric column, neighbour order gives non-decreasing values for +1 and non-increasing values for -1, for every pair of rows |
| Sorting.TextColumnSorted | app.js:124 | in a column with no numeric cell, neighbour order gives ascending (+1) or descending (-1) text order for every pair of rows |
| Sorting.NumericBeforeText | app.js:119-124 | "2" sorts before "10" ascending, although "10" is first as text |
| Viewer.Toggled | app.js:109 | the new state is never null, and it is "desc" exactly when the old state was "asc" |
| Viewer.Direction | app.js:110 | the direction is +1 or -1, and +1 exactly for "asc" |
| Viewer.SortStateAfter | app.js:103-109 | after `sortTable(c)` the keys are the old keys plus c, c holds the toggled state, and every other key is null |
| Viewer.SingleIndicator | app.js:103-109 | after a sort exactly one column, the sorted one, has a non-null state |
| Viewer.SortToggles | app.js:109 | from any state but "asc", three sorts of one column give "asc", "desc", "asc" |
| Viewer.Icon | app.js:54-59 | the glyph is ▲ exactly for "asc", ▼ exactly for "desc", and ⇅ exactly for null or a missing entry |
| Viewer.FilterValue | app.js:76 | a column's filter box shows the saved query, or "" when none is saved |
| Viewer.RenderTable | app.js:33-98 | no data renders nothing; otherwise the first row is the header over all remaining rows in order, with one glyph and one filter value per header cell |
| Viewer.RenderAfterSort | app.js:54-59 | right after a sort only the sorted column shows an arrow, ▲ exactly when it went ascending |
| Viewer.RenderAfterLoad | app.js:54-76 | right after a load the header is the first row, every glyph is ⇅ and every filter box is empty |
| Viewer.Session.constructor | app.js:9-12 | the page starts with an empty dataset, an empty view and empty sort and filter maps |
| Viewer.Session.Valid | app.js:9-12 | the invariant every method keeps: the view is no longer than the data rows and holds only data rows, the header has a cell, and at most one column has a sort direction (`SingleIndicator`) |
| Viewer.Session.Projection | app.js:127 | with a loaded table, what is rendered is the header followed by exactly the view; with none there is no header row |
| Viewer.Session.Render | app.js:139 | every render after an operation shows the dataset's header, never filtered or sorted, over exactly the current view |
| Viewer.Session.Load | app.js:157-162 | the dataset becomes the parse of the text, the view every data row, both maps become empty, and the table is rendered whole |
| Viewer.Session.FilterGlobal | app.js:133-140 | the view becomes the global filter of the dataset's data rows; the dataset, the sort state and the saved column queries are unchanged |
| Viewer.Session.FilterColumn | app.js:143-152 | the query is saved for that column, and the view becomes that column's filter of the data rows, whatever the other saved queries say |
| Viewer.Session.Sort | app.js:102-130 | the sort state becomes `SortStateAfter` of the old one; the view is a permutation of the old view, in comparator order for the new direction |

## Left out

- DOM construction and clearing in `renderTable` (app.js:33-99): only the header, glyphs, filter-box values and body rows are modelled.
- The loading indicator (app.js:23-30) is presentation only.
- The `setTimeout` deferral in `sortTable` (app.js:114-129) is left out. The sort is applied at once, right after the state update. So the race between a pending sort and a later filter or load is not modelled.
- `FileReader`, the file input, the drag-and-drop handlers, the MIME check and `alert` (app.js:155-196) are asynchronous I/O and event wiring. Only the `onload` body is modelled, as `Load(text)`.
- Sorting.IsNumeric: the JavaScript test `!isNaN(v)` with `parseFloat` is modelled as an optionally signed decimal integer. JavaScript also accepts decimals, exponents, hex, "Infinity" and surrounding whitespace, and it treats "" as numeric (then comparing NaN). Floating point is not modelled.
- Sorting.LexCompare: `localeCompare` is a foreign collation call. It is replaced by lexicographic order on code points.
- Text.LowerChar: `toLowerCase` is modelled for ASCII letters only. Unicode case mapping is not modelled.
- Text.IsSpace and string lengths: JavaScript strings are UTF-16 code units, and the model's characters are Unicode scalar values. Nothing in the engine depends on the difference except text beyond the Basic Multilingual Plane.
- Sorting.SortRows: `Array.prototype.sort`'s algorithm is not part of `app.js`. The model uses a stable insertion sort. Its contract gives a permutation with every neighbouring pair in comparator order. For a column mixing numeric and text cells the comparator is not transitive. So full order is proved only for all-numeric and all-text columns. JavaScript's own order for an inconsistent comparator is implementation-defined.
- Viewer.Session: `filteredData` is a `seq` that the methods reassign. The in-place mutation of the JavaScript array and any aliasing of row arrays between `dataset` and `filteredData` are not modelled.
- Viewer.Session.Projection: before any load, `filterTable` renders `[undefined]` and `renderTable` throws a TypeError on the missing header. The model returns `None` there and does not model the exception.
- `sortState` and `columnFilters` are JavaScript objects whose keys are strings. They are modelled as maps keyed by column index, which is how `app.js` uses them.
