/**
  `dataframe_to_latex` of tool/utils.py: a table becomes a LaTeX `table`
  float holding a `tabular` with three `\hline` rules, an optional caption
  above or below the tabular and an optional label. The header row is
  shifted one column to the right: an empty corner cell, then the labels of
  all columns but the last.
 */
module SimpleLatex {
  import opened Text
  import opened Wrappers
  import opened TableParser
  import opened Sequences

  /** The caption positions the renderer recognises: "上" (above) and "下" (below). */
  const Top := "\U{4E0A}"
  const Bottom := "\U{4E0B}"

  /* The lines of this renderer are indented (four spaces, eight for rules
     and rows), unlike those of `ComplexLatex`, hence its own constants and
     line helpers below. */
  const Centering := "    \\centering"
  const Hline := "        \\hline"
  const EndTabular := "    \\end{tabular}"
  const EndTable := "\\end{table}"

  /** pandas' `df.empty`: no columns or no rows. */
  predicate IsEmpty(t: Table) {
    |t.columns| == 0 || |t.rows| == 0
  }

  /** `str(label)`: a positional label prints as its number. */
  function LabelText(l: Label): string {
    match l
    case Position(k) => NatToString(k)
    case Name(s) => s
  }

  /** The tabular column format for `n >= 1` columns: `"c" + "c" * (n - 1)`
      when `leftCentered`, otherwise `"l" + "c" * (n - 1)`. */
  function ColumnFormat(n: nat, leftCentered: bool): (f: string)
    requires n >= 1
    ensures |f| == n
    ensures f[0] == (if leftCentered then 'c' else 'l')
    ensures forall k :: 1 <= k < n ==> f[k] == 'c'
  {
    (if leftCentered then "c" else "l") + Repeat('c', n - 1)
  }

  function TextCell(l: Label): string {
    "\\text{" + LabelText(l) + "}"
  }

  /** The header cells: an empty corner cell, then `\text{...}` of every
      column label but the last, so that there is one cell per column and
      the labels sit one column to the right of their data. */
  function HeaderCells(columns: seq<Label>): (h: seq<string>)
    requires |columns| >= 1
    ensures |h| == |columns| && h[0] == ""
    ensures forall k :: 1 <= k < |h| ==> h[k] == TextCell(columns[k - 1])
  {
    [""] + seq(|columns| - 1, k requires 0 <= k < |columns| - 1 => TextCell(columns[k]))
  }

  /** One tabular row: the cells joined by `" & "`, indented, ended by `\\`. */
  function RowLine(cells: seq<string>): string {
    "        " + Join(" & ", cells) + " \\\\"
  }

  function DataLines(rows: seq<seq<string>>): (lines: seq<string>)
    ensures |lines| == |rows|
    ensures forall i :: 0 <= i < |rows| ==> lines[i] == RowLine(rows[i])
  {
    seq(|rows|, i requires 0 <= i < |rows| => RowLine(rows[i]))
  }

  /** Always bracketed, even around an empty placement (`ComplexLatex`
      drops empty brackets). */
  function BeginTable(position: string): string {
    "\\begin{table}[" + position + "]"
  }

  /** Takes the column format, which the left-centred flag chooses. */
  function BeginTabular(format: string): string {
    "    \\begin{tabular}{" + format + "}"
  }

  function CaptionLine(caption: string): string {
    "    \\caption{" + caption + "}"
  }

  function LabelLine(refLabel: string): string {
    "    \\label{" + refLabel + "}"
  }

  /** Whether the caption goes above the tabular, below it, or nowhere. */
  predicate CaptionAbove(caption: string, captionPosition: string) {
    caption != "" && captionPosition == Top
  }

  predicate CaptionBelow(caption: string, captionPosition: string) {
    caption != "" && captionPosition == Bottom
  }

  /** The lines up to the rule under the header row. */
  function OpeningLines(columns: seq<Label>, caption: string, position: string,
                        captionPosition: string, leftCentered: bool): seq<string>
    requires |columns| >= 1
  {
    [BeginTable(position), Centering]
    + CaptionAboveLines(caption, captionPosition)
    + [BeginTabular(ColumnFormat(|columns|, leftCentered)), Hline, RowLine(HeaderCells(columns)), Hline]
  }

  /** The caption line when the caption goes above the tabular, otherwise nothing. */
  function CaptionAboveLines(caption: string, captionPosition: string): seq<string> {
    if CaptionAbove(caption, captionPosition) then [CaptionLine(caption)] else []
  }

  /** The caption line when the caption goes below the tabular, otherwise nothing. */
  function CaptionBelowLines(caption: string, captionPosition: string): seq<string> {
    if CaptionBelow(caption, captionPosition) then [CaptionLine(caption)] else []
  }

  /** The label line when the label is non-empty, otherwise nothing. */
  function LabelLines(refLabel: string): seq<string> {
    if refLabel != "" then [LabelLine(refLabel)] else []
  }

  /** The lines from the rule under the data rows to the end. */
  function ClosingLines(caption: string, refLabel: string, captionPosition: string): seq<string> {
    [Hline, EndTabular] + CaptionBelowLines(caption, captionPosition) + LabelLines(refLabel) + [EndTable]
  }

  /** The lines of the rendered LaTeX, in order; the output is these lines
      joined by newlines. */
  function LatexLines(t: Table, caption: string, refLabel: string, position: string,
                      captionPosition: string, leftCentered: bool): seq<string>
  {
    if IsEmpty(t) then []
    else
      OpeningLines(t.columns, caption, position, captionPosition, leftCentered)
      + DataLines(t.rows)
      + ClosingLines(caption, refLabel, captionPosition)
  }

  /** 1 when the caption is written above the tabular, otherwise 0. */
  function AboveCount(caption: string, captionPosition: string): nat {
    if CaptionAbove(caption, captionPosition) then 1 else 0
  }

  /** 1 when the caption is written below the tabular, otherwise 0. */
  function BelowCount(caption: string, captionPosition: string): nat {
    if CaptionBelow(caption, captionPosition) then 1 else 0
  }

  /** 1 when the label is written, otherwise 0. */
  function LabelCount(refLabel: string): nat {
    if refLabel != "" then 1 else 0
  }

  /** `lines` has the layout of the rendering of the non-empty table `t`,
      writing `top`, `bottom` and `lab` for the counts above: the placement in
      brackets, `\centering`, the caption when it goes above, the tabular
      opener, a rule, the header row, a rule, one line per data row, a rule,
      the tabular closer, the caption when it goes below, the label when it
      is non-empty, and the closer of the float last. */
  predicate LaidOut(lines: seq<string>, t: Table, caption: string, refLabel: string, position: string,
                    captionPosition: string, leftCentered: bool)
    requires !IsEmpty(t)
  {
    var top := AboveCount(caption, captionPosition);
    var bottom := BelowCount(caption, captionPosition);
    var lab := LabelCount(refLabel);
    var m := |t.rows|;
    && |lines| == 9 + top + m + bottom + lab
    && lines[0] == BeginTable(position)
    && lines[1] == Centering
    && (top == 1 ==> lines[2] == CaptionLine(caption))
    && lines[2 + top] == BeginTabular(ColumnFormat(|t.columns|, leftCentered))
    && lines[3 + top] == Hline
    && lines[4 + top] == RowLine(HeaderCells(t.columns))
    && lines[5 + top] == Hline
    && (forall i :: 0 <= i < m ==> lines[6 + top + i] == RowLine(t.rows[i]))
    && lines[6 + top + m] == Hline
    && lines[7 + top + m] == EndTabular
    && (bottom == 1 ==> lines[8 + top + m] == CaptionLine(caption))
    && (lab == 1 ==> lines[8 + top + m + bottom] == LabelLine(refLabel))
    && lines[8 + top + m + bottom + lab] == EndTable
  }

  /** The rendering of a non-empty table has that layout. */
  lemma Layout(t: Table, caption: string, refLabel: string, position: string,
               captionPosition: string, leftCentered: bool)
    requires !IsEmpty(t)
    ensures LaidOut(LatexLines(t, caption, refLabel, position, captionPosition, leftCentered),
                    t, caption, refLabel, position, captionPosition, leftCentered)
  {
    LayoutOpening(t, caption, refLabel, position, captionPosition, leftCentered);
    LayoutData(t, caption, refLabel, position, captionPosition, leftCentered);
    LayoutClosing(t, caption, refLabel, position, captionPosition, leftCentered);
  }

  /** The lines before the data rows. */
  lemma LayoutOpening(t: Table, caption: string, refLabel: string, position: string,
                      captionPosition: string, leftCentered: bool)
    requires !IsEmpty(t)
    ensures var lines := LatexLines(t, caption, refLabel, position, captionPosition, leftCentered);
      var top := AboveCount(caption, captionPosition);
      && |lines| == 9 + top + |t.rows| + BelowCount(caption, captionPosition) + LabelCount(refLabel)
      && lines[0] == BeginTable(position)
      && lines[1] == Centering
      && (top == 1 ==> lines[2] == CaptionLine(caption))
      && lines[2 + top] == BeginTabular(ColumnFormat(|t.columns|, leftCentered))
      && lines[3 + top] == Hline
      && lines[4 + top] == RowLine(HeaderCells(t.columns))
      && lines[5 + top] == Hline
  {
    var opening := OpeningLines(t.columns, caption, position, captionPosition, leftCentered);
    var data := DataLines(t.rows);
    var closing := ClosingLines(caption, refLabel, captionPosition);
    var top := AboveCount(caption, captionPosition);
    assert LatexLines(t, caption, refLabel, position, captionPosition, leftCentered) == opening + data + closing;
    assert |opening| == 6 + top;
    InFirst(opening, data, closing, 0);
    InFirst(opening, data, closing, 1);
    if top == 1 {
      InFirst(opening, data, closing, 2);
    }
    InFirst(opening, data, closing, 2 + top);
    InFirst(opening, data, closing, 3 + top);
    InFirst(opening, data, closing, 4 + top);
    InFirst(opening, data, closing, 5 + top);
  }

  /** The data rows, one line each, after the opening lines. */
  lemma LayoutData(t: Table, caption: string, refLabel: string, position: string,
                   captionPosition: string, leftCentered: bool)
    requires !IsEmpty(t)
    ensures var lines := LatexLines(t, caption, refLabel, position, captionPosition, leftCentered);
      var top := AboveCount(caption, captionPosition);
      |lines| >= 6 + top + |t.rows| &&
      forall i :: 0 <= i < |t.rows| ==> lines[6 + top + i] == RowLine(t.rows[i])
  {
    var opening := OpeningLines(t.columns, caption, position, captionPosition, leftCentered);
    var data := DataLines(t.rows);
    var closing := ClosingLines(caption, refLabel, captionPosition);
    var top := AboveCount(caption, captionPosition);
    assert LatexLines(t, caption, refLabel, position, captionPosition, leftCentered) == opening + data + closing;
    assert |opening| == 6 + top;
    forall i | 0 <= i < |t.rows| ensures (opening + data + closing)[6 + top + i] == RowLine(t.rows[i]) {
      InSecond(opening, data, closing, i);
    }
  }

  /** The lines after the data rows. */
  lemma LayoutClosing(t: Table, caption: string, refLabel: string, position: string,
                      captionPosition: string, leftCentered: bool)
    requires !IsEmpty(t)
    ensures var lines := LatexLines(t, caption, refLabel, position, captionPosition, leftCentered);
      var top := AboveCount(caption, captionPosition);
      var bottom := BelowCount(caption, captionPosition);
      var lab := LabelCount(refLabel);
      var m := |t.rows|;
      && |lines| == 9 + top + m + bottom + lab
      && lines[6 + top + m] == Hline
      && lines[7 + top + m] == EndTabular
      && (bottom == 1 ==> lines[8 + top + m] == CaptionLine(caption))
      && (lab == 1 ==> lines[8 + top + m + bottom] == LabelLine(refLabel))
      && lines[8 + top + m + bottom + lab] == EndTable
  {
    var opening := OpeningLines(t.columns, caption, position, captionPosition, leftCentered);
    var data := DataLines(t.rows);
    var closing := ClosingLines(caption, refLabel, captionPosition);
    var top := AboveCount(caption, captionPosition);
    var bottom := BelowCount(caption, captionPosition);
    var lab := LabelCount(refLabel);
    assert LatexLines(t, caption, refLabel, position, captionPosition, leftCentered) == opening + data + closing;
    assert |opening| == 6 + top;
    assert |closing| == 3 + bottom + lab;
    InThird(opening, data, closing, 0);
    InThird(opening, data, closing, 1);
    if bottom == 1 {
      InThird(opening, data, closing, 2);
    }
    if lab == 1 {
      InThird(opening, data, closing, 2 + bottom);
    }
    InThird(opening, data, closing, 2 + bottom + lab);
  }

  /** The layout fixes every line: two sequences with the layout are equal. */
  lemma LaidOutUnique(a: seq<string>, b: seq<string>, t: Table, caption: string, refLabel: string,
                      position: string, captionPosition: string, leftCentered: bool)
    requires !IsEmpty(t)
    requires LaidOut(a, t, caption, refLabel, position, captionPosition, leftCentered)
    requires LaidOut(b, t, caption, refLabel, position, captionPosition, leftCentered)
    ensures a == b
  {
    var top := AboveCount(caption, captionPosition);
    var m := |t.rows|;
    forall i | 0 <= i < |a| ensures a[i] == b[i] {
      if 6 + top <= i < 6 + top + m {
        assert a[6 + top + (i - 6 - top)] == RowLine(t.rows[i - 6 - top]);
        assert b[6 + top + (i - 6 - top)] == RowLine(t.rows[i - 6 - top]);
      }
    }
  }

  /** Every line of `lines` followed by a newline: the text the renderer has
      written once it has appended those lines. */
  function Block(lines: seq<string>): string {
    if lines == [] then "" else Block(lines[..|lines| - 1]) + lines[|lines| - 1] + "\n"
  }

  lemma BlockSnoc(lines: seq<string>, l: string)
    ensures Block(lines + [l]) == Block(lines) + l + "\n"
  {
    assert (lines + [l])[..|lines|] == lines;
  }

  /** Joining lines with newlines is terminating all but the last of them
      and appending the last. */
  lemma {:induction false} JoinBlock(lines: seq<string>)
    requires lines != []
    ensures Join("\n", lines) == Block(lines[..|lines| - 1]) + lines[|lines| - 1]
    decreases |lines|
  {
    if |lines| > 1 {
      var init := lines[..|lines| - 1];
      JoinBlock(init);
      assert init[..|init| - 1] == lines[..|lines| - 2];
      assert lines[..|lines| - 1] == init[..|init| - 1] + [init[|init| - 1]];
      BlockSnoc(init[..|init| - 1], init[|init| - 1]);
    }
  }

  /** `code += l + "\n"`, with the lines written so far as ghost state. */
  method WriteLine(code: string, ghost lines: seq<string>, l: string)
    returns (code': string, ghost lines': seq<string>)
    requires code == Block(lines)
    ensures lines' == lines + [l] && code' == Block(lines')
  {
    code', lines' := code + l + "\n", lines + [l];
    BlockSnoc(lines, l);
  }

  /** The source's first appends: the table opener, `\centering` and the
      caption when it goes above. */
  method WriteHead(caption: string, position: string, captionPosition: string)
    returns (code: string, ghost lines: seq<string>)
    ensures lines == [BeginTable(position), Centering] + CaptionAboveLines(caption, captionPosition)
    ensures code == Block(lines)
  {
    code, lines := WriteLine("", [], BeginTable(position));
    code, lines := WriteLine(code, lines, Centering);
    AppendTwo([], BeginTable(position), Centering);
    if caption != "" && captionPosition == Top {
      code, lines := WriteLine(code, lines, CaptionLine(caption));
    }
  }

  /** The next appends: the tabular opener with its column format, a rule,
      the header row and a rule. */
  method WriteHeaderRow(code: string, ghost lines: seq<string>, columns: seq<Label>, leftCentered: bool)
    returns (code': string, ghost lines': seq<string>)
    requires |columns| >= 1 && code == Block(lines)
    ensures lines' == lines + [BeginTabular(ColumnFormat(|columns|, leftCentered)), Hline,
                               RowLine(HeaderCells(columns)), Hline]
    ensures code' == Block(lines')
  {
    var numCols := |columns|;
    var colFormat := ColumnFormat(numCols, leftCentered);
    code', lines' := WriteLine(code, lines, BeginTabular(colFormat));
    code', lines' := WriteLine(code', lines', Hline);
    var headerCells := HeaderCells(columns);
    code', lines' := WriteLine(code', lines', RowLine(headerCells));
    code', lines' := WriteLine(code', lines', Hline);
    AppendFour(lines, BeginTabular(colFormat), Hline, RowLine(headerCells), Hline);
  }

  /** Everything up to the rule under the header row. */
  method WriteOpening(columns: seq<Label>, caption: string, position: string,
                      captionPosition: string, leftCentered: bool)
    returns (code: string, ghost lines: seq<string>)
    requires |columns| >= 1
    ensures lines == OpeningLines(columns, caption, position, captionPosition, leftCentered)
    ensures code == Block(lines)
  {
    code, lines := WriteHead(caption, position, captionPosition);
    code, lines := WriteHeaderRow(code, lines, columns, leftCentered);
  }

  /** The appends after the data rows: a rule, the tabular's end and the
      caption when it goes below. */
  method WriteTail(code: string, ghost lines: seq<string>, caption: string, captionPosition: string)
    returns (code': string, ghost lines': seq<string>)
    requires code == Block(lines)
    ensures lines' == lines + [Hline, EndTabular] + CaptionBelowLines(caption, captionPosition)
    ensures code' == Block(lines')
  {
    code', lines' := WriteLine(code, lines, Hline);
    code', lines' := WriteLine(code', lines', EndTabular);
    AppendTwo(lines, Hline, EndTabular);
    if caption != "" && captionPosition == Bottom {
      code', lines' := WriteLine(code', lines', CaptionLine(caption));
    }
  }

  /** The label line, appended when the label is non-empty. */
  method WriteLabel(code: string, ghost lines: seq<string>, refLabel: string)
    returns (code': string, ghost lines': seq<string>)
    requires code == Block(lines)
    ensures lines' == lines + LabelLines(refLabel)
    ensures code' == Block(lines')
  {
    code', lines' := code, lines;
    if refLabel != "" {
      code', lines' := WriteLine(code, lines, LabelLine(refLabel));
    }
  }

  /** Everything after the data rows but the final `\end{table}`, which the
      source appends without a newline. */
  method WriteClosing(code: string, ghost lines: seq<string>, caption: string, refLabel: string,
                      captionPosition: string)
    returns (code': string, ghost lines': seq<string>)
    requires code == Block(lines)
    ensures lines' + [EndTable] == lines + ClosingLines(caption, refLabel, captionPosition)
    ensures code' == Block(lines')
  {
    code', lines' := WriteTail(code, lines, caption, captionPosition);
    code', lines' := WriteLabel(code', lines', refLabel);
    AppendAssoc(lines, [Hline, EndTabular], CaptionBelowLines(caption, captionPosition),
                LabelLines(refLabel), [EndTable]);
  }

  /** The renderer as the source writes it: a string grown line by line, with
      a loop over the data rows, that ends in the rendered lines joined by
      newlines. */
  method DataframeToLatex(t: Table, caption: string, refLabel: string, position: string,
                          captionPosition: string, leftCentered: bool) returns (code: string)
    ensures code == Join("\n", LatexLines(t, caption, refLabel, position, captionPosition, leftCentered))
  {
    if IsEmpty(t) {
      return "";
    }
    ghost var lines;
    code, lines := WriteOpening(t.columns, caption, position, captionPosition, leftCentered);
    ghost var opening := lines;
    ghost var data := DataLines(t.rows);
    for i := 0 to |t.rows|
      invariant lines == opening + data[..i] && code == Block(lines)
    {
      var rowData := t.rows[i];
      code, lines := WriteLine(code, lines, "        " + Join(" & ", rowData) + " \\\\");
      ExtendPrefix(opening, data, i);
    }
    assert data[..|data|] == data;
    code, lines := WriteClosing(code, lines, caption, refLabel, captionPosition);
    code := code + EndTable;
    ghost var all := LatexLines(t, caption, refLabel, position, captionPosition, leftCentered);
    JoinBlock(all);
    DropLast(lines, EndTable);
  }

  /** Joined text is at least as long as its first part. */
  lemma {:induction false} JoinCoversFirst(sep: string, parts: seq<string>)
    requires parts != []
    ensures |Join(sep, parts)| >= |parts[0]|
    decreases |parts|
  {
    if |parts| > 1 {
      JoinCoversFirst(sep, parts[..|parts| - 1]);
    }
  }

  /** The renderer returns the empty string exactly for an empty table. */
  lemma EmptyIff(t: Table, caption: string, refLabel: string, position: string,
                 captionPosition: string, leftCentered: bool)
    ensures Join("\n", LatexLines(t, caption, refLabel, position, captionPosition, leftCentered)) == ""
            <==> IsEmpty(t)
  {
    if !IsEmpty(t) {
      var lines := LatexLines(t, caption, refLabel, position, captionPosition, leftCentered);
      Layout(t, caption, refLabel, position, captionPosition, leftCentered);
      JoinCoversFirst("\n", lines);
    }
  }

  /** A tabular row line is indented by eight spaces and ends with a backslash. */
  lemma RowLineShape(cells: seq<string>)
    ensures var l := RowLine(cells);
      |l| >= 11 && l[4] == ' ' && l[|l| - 1] == '\\'
  {
  }

  /** The two caption positions exclude each other, so the caption is
      written at most once. */
  lemma CaptionOnce(caption: string, captionPosition: string)
    ensures !(CaptionAbove(caption, captionPosition) && CaptionBelow(caption, captionPosition))
  {
    assert Top[0] != Bottom[0];
  }

  /** In any sequence with the layout, exactly three lines are `\hline`. */
  lemma HlinesOf(lines: seq<string>, t: Table, caption: string, refLabel: string, position: string,
                 captionPosition: string, leftCentered: bool)
    requires !IsEmpty(t)
    requires LaidOut(lines, t, caption, refLabel, position, captionPosition, leftCentered)
    ensures var top := AboveCount(caption, captionPosition);
      forall i :: 0 <= i < |lines| ==>
        (lines[i] == Hline <==> i == 3 + top || i == 5 + top || i == 6 + top + |t.rows|)
  {
    var top := AboveCount(caption, captionPosition);
    var m := |t.rows|;
    forall i | 0 <= i < |lines|
      ensures lines[i] == Hline <==> i == 3 + top || i == 5 + top || i == 6 + top + m
    {
      if i == 4 + top {
        RowLineShape(HeaderCells(t.columns));
      } else if 6 + top <= i < 6 + top + m {
        assert lines[6 + top + (i - 6 - top)] == RowLine(t.rows[i - 6 - top]);
        RowLineShape(t.rows[i - 6 - top]);
      } else if i == 0 {
        assert lines[i][0] != Hline[0];
      } else if i != 3 + top && i != 5 + top && i != 6 + top + m {
        assert lines[i][4] != Hline[4];
      }
    }
  }

  /** Exactly three lines are `\hline`: the one under the tabular opener, the
      one under the header row, and the one under the last data row, so the
      data rows are the lines between the second and the third. */
  lemma ThreeHlines(t: Table, caption: string, refLabel: string, position: string,
                    captionPosition: string, leftCentered: bool)
    requires !IsEmpty(t)
    ensures var lines := LatexLines(t, caption, refLabel, position, captionPosition, leftCentered);
      var top := AboveCount(caption, captionPosition);
      forall i :: 0 <= i < |lines| ==>
        (lines[i] == Hline <==> i == 3 + top || i == 5 + top || i == 6 + top + |t.rows|)
  {
    Layout(t, caption, refLabel, position, captionPosition, leftCentered);
    HlinesOf(LatexLines(t, caption, refLabel, position, captionPosition, leftCentered),
             t, caption, refLabel, position, captionPosition, leftCentered);
  }

  /** In any sequence with the layout, the caption line is where the layout puts it and nowhere else. */
  lemma CaptionsOf(lines: seq<string>, t: Table, caption: string, refLabel: string, position: string,
                   captionPosition: string, leftCentered: bool)
    requires !IsEmpty(t)
    requires LaidOut(lines, t, caption, refLabel, position, captionPosition, leftCentered)
    ensures forall i :: 0 <= i < |lines| ==>
      (lines[i] == CaptionLine(caption) <==>
         (CaptionAbove(caption, captionPosition) && i == 2)
         || (CaptionBelow(caption, captionPosition) && i == 8 + |t.rows|))
  {
    var top := AboveCount(caption, captionPosition);
    var m := |t.rows|;
    CaptionOnce(caption, captionPosition);
    forall i | 0 <= i < |lines|
      ensures lines[i] == CaptionLine(caption) <==>
         (CaptionAbove(caption, captionPosition) && i == 2)
         || (CaptionBelow(caption, captionPosition) && i == 8 + m)
    {
      if i < 6 + top {
        CaptionInOpening(lines, t, caption, refLabel, position, captionPosition, leftCentered, i);
      } else if i < 6 + top + m {
        NoCaptionInData(lines, t, caption, refLabel, position, captionPosition, leftCentered, i);
      } else {
        CaptionInClosing(lines, t, caption, refLabel, position, captionPosition, leftCentered, i);
      }
    }
  }

  /** Before the data rows the caption line is line 2, when it goes above. */
  lemma CaptionInOpening(lines: seq<string>, t: Table, caption: string, refLabel: string, position: string,
                 captionPosition: string, leftCentered: bool, i: nat)
    requires !IsEmpty(t)
    requires LaidOut(lines, t, caption, refLabel, position, captionPosition, leftCentered)
    requires i < 6 + AboveCount(caption, captionPosition)
    ensures lines[i] == CaptionLine(caption) <==> CaptionAbove(caption, captionPosition) && i == 2
  {
    var top := AboveCount(caption, captionPosition);
    var cap := CaptionLine(caption);
    if i == 4 + top {
      RowLineShape(HeaderCells(t.columns));
      assert lines[i][4] != cap[4];
    } else if i == 0 {
      assert lines[i][0] != cap[0];
    } else if i == 3 + top || i == 5 + top {
      assert lines[i][4] != cap[4];
    } else if i == 1 {
      assert lines[i][6] != cap[6];
    } else if i == 2 + top {
      assert lines[i][5] != cap[5];
    }
  }

  /** No data row is the caption line. */
  lemma NoCaptionInData(lines: seq<string>, t: Table, caption: string, refLabel: string, position: string,
                 captionPosition: string, leftCentered: bool, i: nat)
    requires !IsEmpty(t)
    requires LaidOut(lines, t, caption, refLabel, position, captionPosition, leftCentered)
    requires 6 + AboveCount(caption, captionPosition) <= i < 6 + AboveCount(caption, captionPosition) + |t.rows|
    ensures lines[i] != CaptionLine(caption)
  {
    var top := AboveCount(caption, captionPosition);
    assert lines[6 + top + (i - 6 - top)] == RowLine(t.rows[i - 6 - top]);
    RowLineShape(t.rows[i - 6 - top]);
    assert lines[i][4] != CaptionLine(caption)[4];
  }

  /** After the data rows the caption line is the line after the tabular
      closer, when it goes below. */
  lemma CaptionInClosing(lines: seq<string>, t: Table, caption: string, refLabel: string, position: string,
                 captionPosition: string, leftCentered: bool, i: nat)
    requires !IsEmpty(t)
    requires LaidOut(lines, t, caption, refLabel, position, captionPosition, leftCentered)
    requires 6 + AboveCount(caption, captionPosition) + |t.rows| <= i < |lines|
    ensures lines[i] == CaptionLine(caption) <==> CaptionBelow(caption, captionPosition) && i == 8 + |t.rows|
  {
    var top := AboveCount(caption, captionPosition);
    var bottom := BelowCount(caption, captionPosition);
    var m := |t.rows|;
    var cap := CaptionLine(caption);
    CaptionOnce(caption, captionPosition);
    if i == |lines| - 1 {
      assert lines[i][0] != cap[0];
    } else if i == 6 + top + m {
      assert lines[i][4] != cap[4];
    } else if i == 7 + top + m {
      assert lines[i][5] != cap[5];
    } else if bottom == 1 && i == 8 + m {
    } else {
      assert lines[i] == LabelLine(refLabel);
      assert lines[i][5] != cap[5];
    }
  }

  /** The caption line appears exactly where it belongs: right after
      `\centering` when it is non-empty and placed "上", right after the
      tabular closer when it is non-empty and placed "下", and nowhere else. */
  lemma CaptionPlacement(t: Table, caption: string, refLabel: string, position: string,
                         captionPosition: string, leftCentered: bool)
    requires !IsEmpty(t)
    ensures var lines := LatexLines(t, caption, refLabel, position, captionPosition, leftCentered);
      forall i :: 0 <= i < |lines| ==>
        (lines[i] == CaptionLine(caption) <==>
           (CaptionAbove(caption, captionPosition) && i == 2)
           || (CaptionBelow(caption, captionPosition) && i == 8 + |t.rows|))
  {
    Layout(t, caption, refLabel, position, captionPosition, leftCentered);
    CaptionsOf(LatexLines(t, caption, refLabel, position, captionPosition, leftCentered),
               t, caption, refLabel, position, captionPosition, leftCentered);
  }

  /** In any sequence with the layout, the label line is second to last when the label is non-empty, and nowhere otherwise. */
  lemma LabelsOf(lines: seq<string>, t: Table, caption: string, refLabel: string, position: string,
                 captionPosition: string, leftCentered: bool)
    requires !IsEmpty(t)
    requires LaidOut(lines, t, caption, refLabel, position, captionPosition, leftCentered)
    ensures forall i :: 0 <= i < |lines| ==>
      (lines[i] == LabelLine(refLabel) <==> refLabel != "" && i == |lines| - 2)
  {
    var top := AboveCount(caption, captionPosition);
    var m := |t.rows|;
    forall i | 0 <= i < |lines|
      ensures lines[i] == LabelLine(refLabel) <==> refLabel != "" && i == |lines| - 2
    {
      if i < 6 + top {
        NoLabelInOpening(lines, t, caption, refLabel, position, captionPosition, leftCentered, i);
      } else if i < 6 + top + m {
        NoLabelInData(lines, t, caption, refLabel, position, captionPosition, leftCentered, i);
      } else {
        LabelInClosing(lines, t, caption, refLabel, position, captionPosition, leftCentered, i);
      }
    }
  }

  /** No line before the data rows is the label line. */
  lemma NoLabelInOpening(lines: seq<string>, t: Table, caption: string, refLabel: string, position: string,
                 captionPosition: string, leftCentered: bool, i: nat)
    requires !IsEmpty(t)
    requires LaidOut(lines, t, caption, refLabel, position, captionPosition, leftCentered)
    requires i < 6 + AboveCount(caption, captionPosition)
    ensures lines[i] != LabelLine(refLabel)
  {
    var top := AboveCount(caption, captionPosition);
    var ll := LabelLine(refLabel);
    if i == 4 + top {
      RowLineShape(HeaderCells(t.columns));
      assert lines[i][4] != ll[4];
    } else if i == 0 {
      assert lines[i][0] != ll[0];
    } else if i == 1 {
      assert lines[i][6] != ll[6];
    } else if i == 3 + top || i == 5 + top {
      assert lines[i][4] != ll[4];
    } else {
      assert lines[i][5] != ll[5];
    }
  }

  /** No data row is the label line. */
  lemma NoLabelInData(lines: seq<string>, t: Table, caption: string, refLabel: string, position: string,
                 captionPosition: string, leftCentered: bool, i: nat)
    requires !IsEmpty(t)
    requires LaidOut(lines, t, caption, refLabel, position, captionPosition, leftCentered)
    requires 6 + AboveCount(caption, captionPosition) <= i < 6 + AboveCount(caption, captionPosition) + |t.rows|
    ensures lines[i] != LabelLine(refLabel)
  {
    var top := AboveCount(caption, captionPosition);
    assert lines[6 + top + (i - 6 - top)] == RowLine(t.rows[i - 6 - top]);
    RowLineShape(t.rows[i - 6 - top]);
    assert lines[i][4] != LabelLine(refLabel)[4];
  }

  /** After the data rows the label line is the second-to-last line, when
      the label is non-empty. */
  lemma LabelInClosing(lines: seq<string>, t: Table, caption: string, refLabel: string, position: string,
                 captionPosition: string, leftCentered: bool, i: nat)
    requires !IsEmpty(t)
    requires LaidOut(lines, t, caption, refLabel, position, captionPosition, leftCentered)
    requires 6 + AboveCount(caption, captionPosition) + |t.rows| <= i < |lines|
    ensures lines[i] == LabelLine(refLabel) <==> refLabel != "" && i == |lines| - 2
  {
    var top := AboveCount(caption, captionPosition);
    var bottom := BelowCount(caption, captionPosition);
    var lab := LabelCount(refLabel);
    var m := |t.rows|;
    var ll := LabelLine(refLabel);
    if i == |lines| - 1 {
      assert lines[i][0] != ll[0];
    } else if i == 6 + top + m {
      assert lines[i][4] != ll[4];
    } else if lab == 1 && i == |lines| - 2 {
    } else {
      assert lines[i][5] != ll[5];
    }
  }

  /** The label line, when the label is non-empty, is the second-to-last
      line, after the tabular and after any caption below it; otherwise no
      line is a label line. */
  lemma LabelPlacement(t: Table, caption: string, refLabel: string, position: string,
                       captionPosition: string, leftCentered: bool)
    requires !IsEmpty(t)
    ensures var lines := LatexLines(t, caption, refLabel, position, captionPosition, leftCentered);
      forall i :: 0 <= i < |lines| ==>
        (lines[i] == LabelLine(refLabel) <==> refLabel != "" && i == |lines| - 2)
  {
    Layout(t, caption, refLabel, position, captionPosition, leftCentered);
    LabelsOf(LatexLines(t, caption, refLabel, position, captionPosition, leftCentered),
             t, caption, refLabel, position, captionPosition, leftCentered);
  }
}
