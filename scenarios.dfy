/**
  Concrete inputs worked through the model: a two-row merged header drawn
  by both renderers, and a pasted table with a blank corner cell parsed with
  both flags.
 */
module Scenarios {
  import opened Text
  import opened Wrappers
  import opened HeaderSpans
  import opened TableParser
  import PreviewHtml
  import ComplexLatex

  /** A header whose first two columns hold "A" in both rows. */
  const MergedHeader: seq<seq<string>> := [["A", "A", "B"], ["A", "A", "C"]]

  /** The spans of the first row: one run of two "A"s, then "B". */
  lemma MergedHeaderSpans()
    ensures RowSpans(MergedHeader[0], 0, 3) == [Span(0, 2), Span(2, 1)]
    ensures RowSpans(MergedHeader[1], 0, 3) == [Span(0, 2), Span(2, 1)]
  {
    assert RunWidth(MergedHeader[0], 1, 3) == 1;
    assert RunWidth(MergedHeader[0], 0, 3) == 2;
    assert RunWidth(MergedHeader[1], 1, 3) == 1;
    assert RunWidth(MergedHeader[1], 0, 3) == 2;
  }

  /** The preview draws "A" over two columns and two rows, then "B"; in the
      second row the "A"s are covered from above and only "C" is drawn. */
  lemma MergedHeaderPreview()
    ensures PreviewHtml.DrawnCells(MergedHeader, 0, 3)
         == [PreviewHtml.HeaderCell("A", 0, 2, 2), PreviewHtml.HeaderCell("B", 2, 1, 1)]
    ensures PreviewHtml.DrawnCells(MergedHeader, 1, 3) == [PreviewHtml.HeaderCell("C", 2, 1, 1)]
  {
    MergedHeaderSpans();
    var spans := [Span(0, 2), Span(2, 1)];
    assert spans[..1] == [Span(0, 2)];
    assert spans[..1][..0] == [];
    assert MergedHeader[1][2] != MergedHeader[0][2];
    var a := PreviewHtml.CellOf(MergedHeader, 0, 3, Span(0, 2));
    var b := PreviewHtml.CellOf(MergedHeader, 0, 3, Span(2, 1));
    assert a == PreviewHtml.HeaderCell("A", 0, 2, 2);
    assert b == PreviewHtml.HeaderCell("B", 2, 1, 1);
    assert PreviewHtml.RowCells(MergedHeader, 0, 3, [Span(0, 2)]) == [a];
    assert PreviewHtml.RowCells(MergedHeader, 0, 3, spans) == [a, b];
    var c := PreviewHtml.CellOf(MergedHeader, 1, 3, Span(2, 1));
    assert c == PreviewHtml.HeaderCell("C", 2, 1, 1);
    assert PreviewHtml.RowCells(MergedHeader, 1, 3, [Span(0, 2)]) == [];
    assert PreviewHtml.RowCells(MergedHeader, 1, 3, spans) == [c];
  }

  /** Joining two pieces puts the separator between them. */
  lemma JoinTwo(sep: string, x: string, y: string)
    ensures Join(sep, [x, y]) == x + sep + y
  {
    assert [x, y][..1] == [x];
  }

  lemma MergedTopEntries()
    ensures ComplexLatex.Entries(MergedHeader, 0, 3, [Span(0, 2), Span(2, 1)])
         == ["\\multicolumn{2}{c}{\\multirow{2}{*}{A}}", "B"]
  {
    var spans := [Span(0, 2), Span(2, 1)];
    assert spans[..1] == [Span(0, 2)];
    assert [Span(0, 2)][..0] == [];
    assert MergedHeader[1][2] != MergedHeader[0][2];
    var a := ComplexLatex.Entry(MergedHeader, 0, 3, Span(0, 2));
    assert a == "\\multicolumn{2}{c}{\\multirow{2}{*}{A}}" by {
      assert ComplexLatex.CellText(MergedHeader, 0, 3, 0) == "\\multirow{2}{*}{A}";
      assert NatToString(2) == "2";
    }
    assert ComplexLatex.Entry(MergedHeader, 0, 3, Span(2, 1)) == "B";
    assert ComplexLatex.Entries(MergedHeader, 0, 3, [Span(0, 2)]) == [a];
  }

  lemma MergedTopRules()
    ensures ComplexLatex.RuleSpans(MergedHeader, 0, 3, [Span(0, 2), Span(2, 1)]) == [Span(0, 2)]
    ensures ComplexLatex.Cmidrules([Span(0, 2)]) == ["\\cmidrule(lr){1-2}"]
  {
    var spans := [Span(0, 2), Span(2, 1)];
    assert spans[..1] == [Span(0, 2)];
    assert [Span(0, 2)][..0] == [];
    assert Strip("A") == "A";
    assert ComplexLatex.RuleSpans(MergedHeader, 0, 3, [Span(0, 2)]) == [Span(0, 2)];
    assert ComplexLatex.Cmidrule(Span(0, 2)) == "\\cmidrule(lr){1-2}" by {
      assert NatToString(1) == "1" && NatToString(2) == "2";
    }
  }

  /** The lines of a header row, from its spans, entries and rules. */
  lemma RowLinesFrom(header: seq<seq<string>>, r: nat, n: nat, spans: seq<Span>,
                     entries: seq<string>, rules: seq<Span>)
    requires r < |header| && Covers(header, n)
    requires RowSpans(header[r], 0, n) == spans && Within(spans, n)
    requires ComplexLatex.Entries(header, r, n, spans) == entries
    requires ComplexLatex.RuleSpans(header, r, n, spans) == rules
    ensures ComplexLatex.HeaderRowLines(header, r, n)
         == [Join(" & ", entries) + " \\\\"] + (if rules == [] then [] else [Join(" ", ComplexLatex.Cmidrules(rules))])
  {
  }

  /** The LaTeX renderer gives the "A" run a two-row `\multirow` inside a
      two-column `\multicolumn`; a rule is queued under the run although the
      run continues into the row below, so the rule is drawn through the
      merged "A". */
  lemma MergedHeaderLatexTop()
    ensures ComplexLatex.HeaderRowLines(MergedHeader, 0, 3)
         == ["\\multicolumn{2}{c}{\\multirow{2}{*}{A}} & B \\\\", "\\cmidrule(lr){1-2}"]
  {
    MergedHeaderSpans();
    MergedTopEntries();
    MergedTopRules();
    var a := "\\multicolumn{2}{c}{\\multirow{2}{*}{A}}";
    RowLinesFrom(MergedHeader, 0, 3, [Span(0, 2), Span(2, 1)], [a, "B"], [Span(0, 2)]);
    JoinTwo(" & ", a, "B");
    assert Join(" ", ["\\cmidrule(lr){1-2}"]) == "\\cmidrule(lr){1-2}";
    assert a + " & " + "B" + " \\\\" == "\\multicolumn{2}{c}{\\multirow{2}{*}{A}} & B \\\\";
  }

  lemma MergedBottomEntries()
    ensures ComplexLatex.Entries(MergedHeader, 1, 3, [Span(0, 2), Span(2, 1)])
         == ["\\multicolumn{2}{c}{}", "C"]
    ensures ComplexLatex.RuleSpans(MergedHeader, 1, 3, [Span(0, 2), Span(2, 1)]) == []
  {
    var spans := [Span(0, 2), Span(2, 1)];
    assert spans[..1] == [Span(0, 2)];
    assert [Span(0, 2)][..0] == [];
    assert MergedHeader[1][2] != MergedHeader[0][2];
    var a := ComplexLatex.Entry(MergedHeader, 1, 3, Span(0, 2));
    assert a == "\\multicolumn{2}{c}{}" by {
      assert ComplexLatex.CellText(MergedHeader, 1, 3, 0) == "";
      assert NatToString(2) == "2";
    }
    assert ComplexLatex.Entry(MergedHeader, 1, 3, Span(2, 1)) == "C";
    assert ComplexLatex.Entries(MergedHeader, 1, 3, [Span(0, 2)]) == [a];
    assert ComplexLatex.RuleSpans(MergedHeader, 1, 3, [Span(0, 2)]) == [];
  }

  /** In the second row the "A" run is a continuation of the one above: its
      entry is blank but still a two-column `\multicolumn`, and the last
      header row queues no rule. */
  lemma MergedHeaderLatexBottom()
    ensures ComplexLatex.HeaderRowLines(MergedHeader, 1, 3)
         == ["\\multicolumn{2}{c}{} & C \\\\"]
  {
    MergedHeaderSpans();
    MergedBottomEntries();
    var a := "\\multicolumn{2}{c}{}";
    RowLinesFrom(MergedHeader, 1, 3, [Span(0, 2), Span(2, 1)], [a, "C"], []);
    JoinTwo(" & ", a, "C");
    assert a + " & " + "C" + " \\\\" == "\\multicolumn{2}{c}{} & C \\\\";
  }

  /** A pasted table whose header line starts with a blank corner cell. */
  const Pasted := "\tX\tY\nR1\t1\t2\nR2\t3\t4"

  const PastedLines: seq<string> := ["X\tY", "R1\t1\t2", "R2\t3\t4"]

  /** Stripping removes the leading tab, and nothing at the end. */
  lemma PastedStrip()
    ensures Strip(Pasted) == Pasted[1..]
  {
    assert TrimStart(Pasted[1..]) == Pasted[1..];
    assert TrimStart(Pasted) == Pasted[1..];
  }

  /** Pieces without the separator that join back to `s` are its split. */
  lemma SplitOf(s: string, sep: char, parts: seq<string>)
    requires |parts| >= 1
    requires forall i :: 0 <= i < |parts| ==> sep !in parts[i]
    requires Join([sep], parts) == s
    ensures Split(s, sep) == parts
  {
    SplitUnique(s, sep, parts);
  }

  lemma PastedSplit()
    ensures Split(Strip(Pasted), '\n') == PastedLines
  {
    PastedStrip();
    assert PastedLines[..1] == ["X\tY"];
    assert PastedLines[..2] == ["X\tY", "R1\t1\t2"];
    assert Join("\n", PastedLines[..2]) == "X\tY\nR1\t1\t2";
    assert Join("\n", PastedLines) == Pasted[1..];
    SplitOf(Pasted[1..], '\n', PastedLines);
  }

  /** Joining three pieces puts the separator between them. */
  lemma JoinThree(sep: string, x: string, y: string, z: string)
    ensures Join(sep, [x, y, z]) == x + sep + y + sep + z
  {
    var parts := [x, y, z];
    assert parts[..2] == [x, y];
    assert [x, y][..1] == [x];
    assert Join(sep, [x, y]) == x + sep + y;
    assert Join(sep, parts) == Join(sep, [x, y]) + sep + z;
  }

  /** A line of three cells that hold no tab and no whitespace at either end. */
  lemma ThreeCells(x: string, y: string, z: string)
    requires '\t' !in x && '\t' !in y && '\t' !in z
    requires x != [] && !IsSpace(x[0]) && !IsSpace(x[|x| - 1])
    requires y != [] && !IsSpace(y[0]) && !IsSpace(y[|y| - 1])
    requires z != [] && !IsSpace(z[0]) && !IsSpace(z[|z| - 1])
    ensures LineCells(x + "\t" + y + "\t" + z) == [x, y, z]
  {
    var parts := [x, y, z];
    JoinThree("\t", x, y, z);
    SplitOf(x + "\t" + y + "\t" + z, '\t', parts);
    StripNoSpace(x);
    StripNoSpace(y);
    StripNoSpace(z);
  }

  /** A non-empty cell that neither starts nor ends with whitespace is
      unchanged by stripping. */
  lemma StripNoSpace(x: string)
    requires x != [] && !IsSpace(x[0]) && !IsSpace(x[|x| - 1])
    ensures Strip(x) == x
  {
  }

  /** A line of two cells that hold no tab and no whitespace at either end. */
  lemma TwoCells(x: string, y: string)
    requires '\t' !in x && '\t' !in y
    requires x != [] && !IsSpace(x[0]) && !IsSpace(x[|x| - 1])
    requires y != [] && !IsSpace(y[0]) && !IsSpace(y[|y| - 1])
    ensures LineCells(x + "\t" + y) == [x, y]
  {
    JoinTwo("\t", x, y);
    SplitOf(x + "\t" + y, '\t', [x, y]);
    StripNoSpace(x);
    StripNoSpace(y);
  }

  /** The cells of a text are those of the lines of its stripped text. */
  lemma TextCellsOf(text: string, lines: seq<string>, cells: seq<seq<string>>)
    requires Split(Strip(text), '\n') == lines
    requires |cells| == |lines|
    requires forall i :: 0 <= i < |lines| ==> LineCells(lines[i]) == cells[i]
    ensures TextCells(text) == cells
  {
  }

  const PastedCellRows: seq<seq<string>> := [["X", "Y"], ["R1", "1", "2"], ["R2", "3", "4"]]

  /** The header line is one cell short and is padded at the end. */
  const PastedGridRows: seq<seq<string>> := [["X", "Y", ""], ["R1", "1", "2"], ["R2", "3", "4"]]

  lemma LinesCells(text: string)
    requires Split(Strip(text), '\n') == PastedLines
    ensures TextCells(text) == PastedCellRows
  {
    assert PastedLines[0] == "X" + "\t" + "Y";
    TwoCells("X", "Y");
    assert PastedLines[1] == "R1" + "\t" + "1" + "\t" + "2";
    ThreeCells("R1", "1", "2");
    assert PastedLines[2] == "R2" + "\t" + "3" + "\t" + "4";
    ThreeCells("R2", "3", "4");
    TextCellsOf(text, PastedLines, PastedCellRows);
  }

  lemma CellsGrid(text: string)
    requires TextCells(text) == PastedCellRows
    ensures Width(text) == 3
    ensures Grid(text) == PastedGridRows
  {
    var cells := PastedCellRows;
    assert cells[..2][..1] == [["X", "Y"]];
    assert MaxLen(cells[..2]) == 3;
    assert Width(text) == 3;
    assert Blanks(0) == [];
    assert Blanks(1) == [""];
    var g := Grid(text);
    assert g[0] == Pad(cells[0], 3) == ["X", "Y", ""];
    assert g[1] == Pad(cells[1], 3) == ["R1", "1", "2"];
    assert g[2] == Pad(cells[2], 3) == ["R2", "3", "4"];
  }

  lemma PastedGrid()
    ensures Strip(Pasted) != []
    ensures Width(Pasted) == 3
    ensures Grid(Pasted) == PastedGridRows
  {
    PastedStrip();
    PastedSplit();
    LinesCells(Pasted);
    CellsGrid(Pasted);
  }

  /** Promoting the padded grid with both flags. */
  lemma GridParse(text: string)
    requires Strip(text) != [] && Width(text) == 3 && Grid(text) == PastedGridRows
    ensures Parse(text, true, true)
         == Table([Name("Y"), Name("")], Some(["R1", "R2"]), [["1", "2"], ["3", "4"]])
  {
    var grid := PastedGridRows;
    var t := Promote(grid, 3, true, true);
    var rows := grid[1..];
    assert rows == [["R1", "1", "2"], ["R2", "3", "4"]];
    assert t.columns == [Name("Y"), Name("")] by {
      var all := seq(3, k requires 0 <= k < 3 => Name(grid[0][k]));
      assert all == [Name("X"), Name("Y"), Name("")];
    }
    assert t.index == Some(["R1", "R2"]) by {
      var labels := seq(|rows|, i requires 0 <= i < |rows| => rows[i][0]);
      assert labels == ["R1", "R2"];
    }
    assert t.rows == [["1", "2"], ["3", "4"]] by {
      assert rows[0][1..] == ["1", "2"];
      assert rows[1][1..] == ["3", "4"];
    }
    assert Parse(text, true, true) == t;
  }

  /** The code parses the example with both flags into the column labels
      "Y" and "" (not "X" and "Y"): stripping the whole text drops the blank
      corner cell, so the header line is one cell short, is padded at the
      end, and its first label "X" is the one consumed by the index flag.
      The row labels and the data are as the columns of the text suggest. */
  lemma PastedParse()
    ensures Parse(Pasted, true, true)
         == Table([Name("Y"), Name("")], Some(["R1", "R2"]), [["1", "2"], ["3", "4"]])
  {
    PastedGrid();
    GridParse(Pasted);
  }
}
