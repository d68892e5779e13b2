/**
  `parse_tab_separated_text` of tool/utils.py: text copied from a spreadsheet
  (cells separated by tabs, rows by newlines) becomes a rectangular table, with
  row 0 optionally promoted to column labels and column 0 optionally moved out
  of the grid to label the rows.
 */
module TableParser {
  import opened Text
  import opened Wrappers
  import opened Sequences

  /** A column label: pandas' default positional label (0, 1, ...) or a label
      taken from the header line. */
  datatype Label = Position(n: nat) | Name(s: string)

  /** The DataFrame the parser returns: its column labels, its row labels
      (`None` for pandas' default positional index) and its cells, row by row. */
  datatype Table = Table(columns: seq<Label>, index: Option<seq<string>>, rows: seq<seq<string>>)

  /** `pd.DataFrame()`: no columns, no rows. */
  const EmptyTable := Table([], None, [])

  predicate Rectangular(rows: seq<seq<string>>, width: nat) {
    forall i :: 0 <= i < |rows| ==> |rows[i]| == width
  }

  /** The cells of one line: split on tabs, every piece stripped. */
  function LineCells(line: string): seq<string> {
    var parts := Split(line, '\t');
    seq(|parts|, k requires 0 <= k < |parts| => Strip(parts[k]))
  }

  /** Python's `max(len(row) for row in rows)`; `max` of nothing raises, so
      there is at least one row. */
  function MaxLen(rows: seq<seq<string>>): (m: nat)
    requires rows != []
    ensures forall i :: 0 <= i < |rows| ==> |rows[i]| <= m
    ensures exists i :: 0 <= i < |rows| && |rows[i]| == m
  {
    if |rows| == 1 then |rows[0]|
    else
      var m := MaxLen(rows[..|rows| - 1]);
      var last := |rows[|rows| - 1]|;
      assert forall i :: 0 <= i < |rows| - 1 ==> rows[..|rows| - 1][i] == rows[i];
      if last > m then last else m
  }

  /** `k` empty cells. */
  function Blanks(k: nat): (r: seq<string>)
    ensures |r| == k && forall j :: 0 <= j < k ==> r[j] == ""
  {
    if k == 0 then [] else Blanks(k - 1) + [""]
  }

  /** `row` right-padded with empty cells to `width` cells. */
  function Pad(row: seq<string>, width: nat): seq<string>
    requires |row| <= width
  {
    row + Blanks(width - |row|)
  }

  /** The lines of the stripped text, each split into its stripped cells. */
  function TextCells(text: string): (cells: seq<seq<string>>)
    ensures |cells| == |Split(Strip(text), '\n')| >= 1
    ensures forall i :: 0 <= i < |cells| ==> |cells[i]| >= 1
  {
    var lines := Split(Strip(text), '\n');
    seq(|lines|, i requires 0 <= i < |lines| => LineCells(lines[i]))
  }

  /** The number of columns: the greatest cell count of any line. */
  function Width(text: string): nat {
    MaxLen(TextCells(text))
  }

  /** Every line's cells, padded to the common width. */
  function Grid(text: string): seq<seq<string>> {
    var cells := TextCells(text);
    seq(|cells|, i requires 0 <= i < |cells| => Pad(cells[i], Width(text)))
  }

  /** The DataFrame built from the padded grid: with `useHeader`, row 0 gives
      the column labels and the data is the remaining rows; with `useIndex`,
      column 0 is moved out of the data into the row labels. */
  function Promote(grid: seq<seq<string>>, width: nat, useHeader: bool, useIndex: bool): Table
    requires |grid| >= 1 && width >= 1 && Rectangular(grid, width)
  {
    var columns :=
      if useHeader then seq(width, k requires 0 <= k < width => Name(grid[0][k]))
      else seq(width, k requires 0 <= k < width => Position(k));
    var rows := if useHeader then grid[1..] else grid;
    if useIndex then
      Table(columns[1..],
            Some(seq(|rows|, i requires 0 <= i < |rows| => rows[i][0])),
            seq(|rows|, i requires 0 <= i < |rows| => rows[i][1..]))
    else
      Table(columns, None, rows)
  }

  /** What `parse_tab_separated_text(text, useHeader, useIndex)` returns. */
  function Parse(text: string, useHeader: bool, useIndex: bool): Table {
    if Strip(text) == [] then EmptyTable
    else
      assert |TextCells(text)[0]| <= Width(text);
      Promote(Grid(text), Width(text), useHeader, useIndex)
  }

  /** The parser as the source writes it: a loop that splits the lines into
      cells, then a loop that pads every row in place to the widest row. */
  method ParseTabSeparatedText(text: string, useHeader: bool, useIndex: bool) returns (t: Table)
    ensures t == Parse(text, useHeader, useIndex)
    ensures Rectangular(t.rows, |t.columns|)
  {
    if Strip(text) == [] {
      return EmptyTable;
    }
    var data := SplitCells(text);
    var maxCols := MaxLen(data);
    data := PadRows(data, maxCols);
    assert data == Grid(text);
    t := Promote(data, maxCols, useHeader, useIndex);
    ParseRectangular(text, useHeader, useIndex);
  }

  /** The first loop: each line of the stripped text split at tabs, every
      piece stripped. */
  method SplitCells(text: string) returns (data: seq<seq<string>>)
    ensures data == TextCells(text)
  {
    var lines := Split(Strip(text), '\n');
    ghost var cells := TextCells(text);
    data := [];
    for i := 0 to |lines|
      invariant data == cells[..i]
    {
      var pieces := Split(lines[i], '\t');
      var row := seq(|pieces|, k requires 0 <= k < |pieces| => Strip(pieces[k]));
      ExtendPrefix([], cells, i);
      data := data + [row];
    }
    assert cells[..|cells|] == cells;
  }

  /** The second loop: every row padded in place with empty cells to `width`. */
  method PadRows(cells: seq<seq<string>>, width: nat) returns (data: seq<seq<string>>)
    requires forall k :: 0 <= k < |cells| ==> |cells[k]| <= width
    ensures |data| == |cells|
    ensures forall k :: 0 <= k < |cells| ==> data[k] == Pad(cells[k], width)
  {
    data := cells;
    for i := 0 to |data|
      invariant |data| == |cells|
      invariant forall k :: 0 <= k < i ==> data[k] == Pad(cells[k], width)
      invariant forall k :: i <= k < |data| ==> data[k] == cells[k]
    {
      var row := data[i];
      while |row| < width
        invariant |cells[i]| <= |row| <= width
        invariant row == cells[i] + Blanks(|row| - |cells[i]|)
      {
        row := row + [""];
      }
      data := data[i := row];
    }
  }

  /** Every data row has one cell per column label. */
  lemma ParseRectangular(text: string, useHeader: bool, useIndex: bool)
    ensures var t := Parse(text, useHeader, useIndex);
      Rectangular(t.rows, |t.columns|)
  {
    if !AllSpace(text) {
      StripEmpty(text);
      assert |TextCells(text)[0]| <= Width(text);
    }
  }

  /** Empty or whitespace-only text, and only that, gives the empty DataFrame. */
  lemma ParseEmptyIff(text: string, useHeader: bool, useIndex: bool)
    ensures Parse(text, useHeader, useIndex) == EmptyTable <==> AllSpace(text)
  {
    StripEmpty(text);
    if !AllSpace(text) {
      var t := Parse(text, useHeader, useIndex);
      var w := Width(text);
      assert |TextCells(text)[0]| <= w;
      if !useIndex && useHeader {
        assert |t.columns| == w;
      } else if !useIndex {
        assert |t.rows| == |Grid(text)|;
      }
    }
  }

  /** A line's cells are its tab-separated pieces, each stripped. */
  lemma LineCellsOf(line: string)
    ensures |LineCells(line)| == |Split(line, '\t')|
    ensures forall k :: 0 <= k < |Split(line, '\t')| ==> LineCells(line)[k] == Strip(Split(line, '\t')[k])
  {
  }

  /** The width is the number of pieces of the line with the most pieces. */
  lemma WidthOf(text: string)
    ensures var lines := Split(Strip(text), '\n');
      && (forall i :: 0 <= i < |lines| ==> |Split(lines[i], '\t')| <= Width(text))
      && (exists i :: 0 <= i < |lines| && |Split(lines[i], '\t')| == Width(text))
  {
    var lines := Split(Strip(text), '\n');
    var cells := TextCells(text);
    forall i | 0 <= i < |lines| ensures |Split(lines[i], '\t')| <= Width(text) {
      assert cells[i] == LineCells(lines[i]);
    }
    var j :| 0 <= j < |cells| && |cells[j]| == Width(text);
    assert cells[j] == LineCells(lines[j]);
  }

  /** Row `i` of the grid is line `i`'s cells followed by empty cells. */
  lemma GridRow(text: string, i: nat)
    requires i < |Split(Strip(text), '\n')|
    ensures var lines := Split(Strip(text), '\n');
      var pieces := Split(lines[i], '\t');
      && |pieces| <= Width(text)
      && |Grid(text)[i]| == Width(text)
      && (forall k :: 0 <= k < |pieces| ==> Grid(text)[i][k] == Strip(pieces[k]))
      && (forall k :: |pieces| <= k < Width(text) ==> Grid(text)[i][k] == "")
  {
    var lines := Split(Strip(text), '\n');
    var cells := TextCells(text);
    assert cells[i] == LineCells(lines[i]);
    LineCellsOf(lines[i]);
    assert Grid(text)[i] == Pad(cells[i], Width(text));
  }

  /** The padded grid of non-blank text: one row per newline-separated line of
      the stripped text; every row has as many cells as the widest line; each
      row starts with its line's stripped cells in order and continues with
      empty cells only. */
  lemma GridShape(text: string)
    requires !AllSpace(text)
    ensures var lines := Split(Strip(text), '\n');
      && |Grid(text)| == |lines|
      && (forall i :: 0 <= i < |lines| ==> |Split(lines[i], '\t')| <= Width(text))
      && (exists i :: 0 <= i < |lines| && |Split(lines[i], '\t')| == Width(text))
      && Rectangular(Grid(text), Width(text))
      && (forall i, k :: 0 <= i < |lines| && 0 <= k < |Split(lines[i], '\t')| ==>
            Grid(text)[i][k] == Strip(Split(lines[i], '\t')[k]))
      && (forall i, k :: 0 <= i < |lines| && |Split(lines[i], '\t')| <= k < Width(text) ==>
            Grid(text)[i][k] == "")
  {
    var lines := Split(Strip(text), '\n');
    WidthOf(text);
    forall i | 0 <= i < |lines|
      ensures |Grid(text)[i]| == Width(text)
      ensures forall k :: 0 <= k < |Split(lines[i], '\t')| ==> Grid(text)[i][k] == Strip(Split(lines[i], '\t')[k])
      ensures forall k :: |Split(lines[i], '\t')| <= k < Width(text) ==> Grid(text)[i][k] == ""
    {
      GridRow(text, i);
    }
  }

  /** Without the flags the data is the padded grid and the labels are 0, 1, ... */
  lemma ParsePlain(text: string)
    requires !AllSpace(text)
    ensures var t := Parse(text, false, false);
      && t.rows == Grid(text) && t.index == None
      && |t.columns| == Width(text) >= 1
      && forall k :: 0 <= k < |t.columns| ==> t.columns[k] == Position(k)
  {
    StripEmpty(text);
    assert |TextCells(text)[0]| <= Width(text);
  }

  /** With the header flag, row 0 of the grid is consumed as the column labels
      and the data is the remaining rows: one row fewer than there are lines,
      so a single line gives labels and no data. */
  lemma ParseHeader(text: string)
    requires !AllSpace(text)
    ensures var t := Parse(text, true, false);
      var lines := Split(Strip(text), '\n');
      && t.rows == Grid(text)[1..]
      && |t.rows| == |lines| - 1
      && (|lines| == 1 ==> t.rows == [])
      && |t.columns| == Width(text)
      && forall k :: 0 <= k < |t.columns| ==> t.columns[k] == Name(Grid(text)[0][k])
  {
    StripEmpty(text);
    assert |TextCells(text)[0]| <= Width(text);
  }

  /** The index flag moves column 0 out of the data: the column labels lose
      their first entry, the row labels are the old column 0, and every row
      loses its first cell; nothing else changes. */
  lemma ParseIndex(text: string, useHeader: bool)
    ensures var u := Parse(text, useHeader, false);
      var t := Parse(text, useHeader, true);
      && u.index == None
      && (AllSpace(text) ==> t == u)
      && (!AllSpace(text) ==>
            && |u.columns| >= 1
            && t.columns == u.columns[1..]
            && Rectangular(u.rows, |u.columns|)
            && t.index == Some(seq(|u.rows|, i requires 0 <= i < |u.rows| => u.rows[i][0]))
            && |t.rows| == |u.rows|
            && forall i :: 0 <= i < |t.rows| ==> t.rows[i] == u.rows[i][1..])
  {
    StripEmpty(text);
    if !AllSpace(text) {
      assert |TextCells(text)[0]| <= Width(text);
      var u := Parse(text, useHeader, false);
      var t := Parse(text, useHeader, true);
      var labels := seq(|u.rows|, i requires 0 <= i < |u.rows| => u.rows[i][0]);
      assert t.index.value == labels by {
        assert |t.index.value| == |labels|;
        forall i | 0 <= i < |labels| ensures t.index.value[i] == labels[i] { }
      }
    }
  }

  /** The quirk kept from the source: the text is stripped as a whole before it
      is split, so a tab at the very start (the blank corner cell of a header
      line such as "\tA\tB") is dropped and the first line's labels shift one
      column to the left. */
  lemma LeadingTabDropped(rest: string, useHeader: bool, useIndex: bool)
    ensures Parse("\t" + rest, useHeader, useIndex) == Parse(rest, useHeader, useIndex)
  {
    assert ("\t" + rest)[1..] == rest;
    assert TrimStart("\t" + rest) == TrimStart(rest);
    assert Strip("\t" + rest) == Strip(rest);
    assert AllSpace("\t" + rest) <==> AllSpace(rest) by {
      ParseEmptyIff("\t" + rest, useHeader, useIndex);
      ParseEmptyIff(rest, useHeader, useIndex);
    }
  }
}
