/** The table format and `parseCSV`: trim the text, split it into lines on
    "\n", split every line into cells on ",". No quoting, no per-cell trimming. */
module Csv {
  import opened Text

  type Cell = string
  type Row = seq<Cell>

  /** What `parseCSV` can return: at least one row, every row has at least one
      cell, and no cell holds a comma or a line break. */
  ghost predicate WellFormed(table: seq<Row>) {
    |table| >= 1 &&
    (forall i :: 0 <= i < |table| ==> |table[i]| >= 1) &&
    (forall i, j :: 0 <= i < |table| && 0 <= j < |table[i]| ==> ',' !in table[i][j] && '\n' !in table[i][j])
  }

  /** `parseCSV(data)`: one row per line of the trimmed text, each row the
      comma-separated cells of its line. */
  function ParseCSV(data: string): (table: seq<Row>)
    ensures WellFormed(table)
    ensures |table| == |Split(Trim(data), '\n')|
  {
    var lines := Split(Trim(data), '\n');
    var table := seq(|lines|, i requires 0 <= i < |lines| => Split(lines[i], ','));
    CellsOfLines(lines, table);
    table
  }

  /** Cells split out of lines without line breaks hold neither a comma nor
      a line break. */
  lemma CellsOfLines(lines: seq<string>, table: seq<Row>)
    requires |lines| >= 1
    requires forall k :: 0 <= k < |lines| ==> '\n' !in lines[k]
    requires |table| == |lines|
    requires forall i :: 0 <= i < |lines| ==> table[i] == Split(lines[i], ',')
    ensures WellFormed(table)
  {
    forall i, j | 0 <= i < |table| && 0 <= j < |table[i]| ensures '\n' !in table[i][j] {
      assert '\n' !in lines[i];
    }
  }

  /** There is one row per line break of the trimmed text, plus one. */
  lemma ParseRowCount(data: string)
    ensures |ParseCSV(data)| == multiset(Trim(data))['\n'] + 1
  {
    SplitLength(Trim(data), '\n');
  }

  /** Each row written as one line, cells joined with ",". */
  function Lines(table: seq<Row>): (lines: seq<string>)
    ensures |lines| == |table|
  {
    seq(|table|, i requires 0 <= i < |table| => Join(table[i], ','))
  }

  /** Writes a table back as text: cells joined with ",", rows with "\n". */
  function Unparse(table: seq<Row>): string {
    Join(Lines(table), '\n')
  }

  /** Writing out a parsed table gives back the trimmed input. */
  lemma ParseUnparse(data: string)
    ensures Unparse(ParseCSV(data)) == Trim(data)
  {
    var lines := Split(Trim(data), '\n');
    var table := ParseCSV(data);
    forall i | 0 <= i < |lines| ensures Lines(table)[i] == lines[i] {
      SplitJoin(lines[i], ',');
    }
    assert Lines(table) == lines;
    SplitJoin(Trim(data), '\n');
  }

  /** The text of a well-formed table splits back into its lines. */
  lemma UnparseLines(table: seq<Row>)
    requires WellFormed(table)
    ensures Split(Unparse(table), '\n') == Lines(table)
  {
    var lines := Lines(table);
    forall k | 0 <= k < |lines| ensures '\n' !in lines[k] {
      LineHasNoBreak(table[k]);
    }
    JoinSplit(lines, '\n');
  }

  /** A well-formed table whose text has no space at either end is read back
      exactly by `parseCSV`. */
  lemma UnparseParse(table: seq<Row>)
    requires WellFormed(table)
    requires NoOuterSpace(Unparse(table))
    ensures ParseCSV(Unparse(table)) == table
  {
    TrimNoop(Unparse(table));
    UnparseLines(table);
    var lines := Lines(table);
    var parsed := ParseCSV(Unparse(table));
    assert |parsed| == |table|;
    forall i | 0 <= i < |table| ensures parsed[i] == table[i] {
      assert parsed[i] == Split(lines[i], ',');
      JoinSplit(table[i], ',');
    }
  }

  /** A row whose cells hold no line break is written as a single line. */
  lemma LineHasNoBreak(row: Row)
    requires forall j :: 0 <= j < |row| ==> '\n' !in row[j]
    ensures '\n' !in Join(row, ',')
  {
    JoinChars(row, ',', '\n');
  }

  /** Empty or all-space input parses to one row holding one empty cell,
      not to an empty table. */
  lemma ParseBlank(data: string)
    requires forall i :: 0 <= i < |data| ==> IsSpace(data[i])
    ensures ParseCSV(data) == [[""]]
  {
    assert Trim(data) == [];
  }

  /** Three lines of two cells parse to three rows of two cells. */
  lemma ParseExample()
    ensures ParseCSV("a,b\n1,2\n3,4") == [["a", "b"], ["1", "2"], ["3", "4"]]
  {
    var table: seq<Row> := [["a", "b"], ["1", "2"], ["3", "4"]];
    var lines := Lines(table);
    assert ["a", "b"][1..] == ["b"] && ["1", "2"][1..] == ["2"] && ["3", "4"][1..] == ["4"];
    assert lines[0] == "a,b" && lines[1] == "1,2" && lines[2] == "3,4";
    assert Join(lines[2..], '\n') == "3,4";
    assert Join(lines[1..], '\n') == "1,2\n3,4";
    assert Unparse(table) == "a,b\n1,2\n3,4";
    UnparseParse(table);
  }
}
