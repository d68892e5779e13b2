# Auto_Latex table engine — a Dafny model

Auto_Latex turns tables copied from a spreadsheet (tab-separated text) and
tables edited in a grid, including tables whose header has several rows of
merged cells, into LaTeX `table`/`tabular` code and an HTML preview. All of
its logic lives in `tool/utils.py`. This project models the four functions
there and the header scan two of them share:

- `parse_tab_separated_text` (module `TableParser`). The text is stripped as
  a whole, split into lines at `'\n'` and into cells at `'\t'`, and every cell
  is stripped. Rows are right-padded with `""` to the widest line. Row 0 can
  become the column labels, and column 0 can become the row labels.
- `dataframe_to_latex` (module `SimpleLatex`). A `table` float with a fixed
  column format, three `\hline`s, a caption above (`"上"`) or below (`"下"`)
  and an optional label. The header row is shifted: an empty corner cell,
  then the labels of every column but the last.
- the header span scan (module `HeaderSpans`). A cursor walks each header row
  left to right. At each stop the span is the run of cells equal to the cell
  under the cursor. Vertical merges look only one row up and one row down, at
  the span's start column.
- `generate_preview_html` (module `PreviewHtml`). `<th>` cells with
  `colspan`/`rowspan` from the scan, and `<td>` body cells.
- `generate_complex_latex` (module `ComplexLatex`). A booktabs table with
  `\multicolumn`, `\multirow{2}`, queued `\cmidrule`s, and `\toprule`,
  `\midrule` and `\bottomrule`.

Each function is modelled twice. A method follows the source's loops (it
appends to a list of lines, or to a string, with loop invariants). A pure
function states the expected list of lines. The method's `ensures` equates its
output with that function joined by newlines, and lemmas prove what the
source promises about the function. The Python built-ins the code relies on
(`str.strip`, `str.split`, `sep.join`, `str(n)`, `c * k`) are defined in
module `Text`, with their own properties proved. Module `Scenarios` works
through two concrete inputs.

Data is modelled on plain values, not on pandas:

- A `DataFrame` is `TableParser.Table`: column labels, optional row labels and
  rows of cells.
- A column label is `Position(k)` (pandas' default label `k`) or `Name(s)`.
- A header grid is a `seq<seq<string>>`.
- A body grid is a `seq<seq<Option<string>>>`, where `None` stands for
  Python's `None`.
- The column count `n_cols` is passed explicitly as `nCols`.

Three behaviours of the code are worth knowing when reading the model:

- The leading `text.strip()` (tool/utils.py:12) also removes a blank corner
  cell at the start of the pasted text. So `"\tX\tY\nR1\t1\t2\nR2\t3\t4"`
  with both flags gives the column labels `["Y",""]`, the row labels
  `["R1","R2"]` and the data `[["1","2"],["3","4"]]`.
  `Scenarios.PastedParse` proves this example, and
  `TableParser.LeadingTabDropped` states the general rule.
- The complex renderer writes the caption line and the label line only
  when they are non-empty (tool/utils.py:153-154).
- The simple renderer's header row is `""` followed by the first *n-1*
  column labels (tool/utils.py:61), so the last label is not printed.

## Model

| member | source | states |
|---|---|---|
| Text.StripSpec | tool/utils.py:9-12 | `str.strip()` returns the slice of the text between a whitespace prefix and a whitespace suffix; the result is empty exactly when the text is all whitespace; otherwise it neither starts nor ends with whitespace |
| Text.SplitSpec | tool/utils.py:12-17 | `str.split(sep)` has one piece more than there are separators; no piece contains the separator; joining the pieces with the separator gives the text back |
| Text.SplitUnique | tool/utils.py:12-17 | any separator-free pieces that join back to the text are its split, so the split is determined by those two properties |
| Text.NatToStringRoundTrip | tool/utils.py:128-129 | the decimal rendering of a number (`str(colspan)`, `str(c_idx+1)`) reads back as that number |
| TableParser.ParseTabSeparatedText | tool/utils.py:3-41 | the loop version of the parser returns `Parse(text, …)`, and every data row has one cell per column label |
| TableParser.SplitCells | tool/utils.py:16-19 | the first loop appends, for every line of the stripped text, that line's tab-separated pieces, each stripped |
| TableParser.PadRows | tool/utils.py:22-27 | the padding loop leaves row `k` as the original row followed by `""`s up to `max_cols` cells |
| TableParser.MaxLen | tool/utils.py:22 | `max_cols` bounds every row's length and is the length of some row |
| TableParser.ParseEmptyIff | tool/utils.py:9-10 | the result is the empty DataFrame exactly when the text is empty or whitespace-only |
| TableParser.GridShape | tool/utils.py:12-27 | non-blank text gives one row per `'\n'`-separated line of the stripped text; the grid is rectangular with the width of the widest line; row `i` starts with line `i`'s stripped cells in order and continues with `""` only |
| TableParser.WidthOf | tool/utils.py:22 | the width is the piece count of the line with the most pieces |
| TableParser.ParsePlain | tool/utils.py:29 | without flags the data is the padded grid, with positional labels 0..n-1 and no row labels |
| TableParser.ParseHeader | tool/utils.py:32-35 | with the header flag, row 0 becomes the column labels and the data is rows 1 onward; the row count drops by one, so a single line gives no data rows |
| TableParser.ParseIndex | tool/utils.py:38-39 | the index flag removes the first column label, makes column 0 the row labels, and removes the first cell of every row; nothing else changes |
| TableParser.ParseRectangular | tool/utils.py:22-39 | every data row of the result has exactly one cell per column label |
| TableParser.LeadingTabDropped | tool/utils.py:12 | a tab at the very start of the text is lost before splitting, so a header line `"\tA\tB"` loses its blank corner cell |
| SimpleLatex.DataframeToLatex | tool/utils.py:43-82 | the `latex_code +=` version returns the expected lines joined by newlines; each step appends one line and its newline |
| SimpleLatex.ColumnFormat | tool/utils.py:48-49 | the column format has exactly `num_cols` characters: the first is `c` if `left_centered`, otherwise `l`; all the others are `c` |
| SimpleLatex.HeaderCells | tool/utils.py:61 | the header row has `num_cols` cells: `""`, then `\text{…}` of labels 0..n-2; the last label is left out |
| SimpleLatex.EmptyIff | tool/utils.py:44-45 | the output is `""` exactly when the table has no columns or no rows |
| SimpleLatex.Layout | tool/utils.py:51-80 | line by line: the placement in brackets, `\centering`, a top caption if any, the tabular opener, `\hline`, the header row, `\hline`, one line per data row, `\hline`, `\end{tabular}`, a bottom caption if any, the label if any, `\end{table}` |
| SimpleLatex.LaidOutUnique | tool/utils.py:51-80 | the layout above determines the lines completely |
| SimpleLatex.ThreeHlines | tool/utils.py:58-70 | there are exactly three `\hline` lines: before the header, after the header, and after the last data row |
| SimpleLatex.CaptionPlacement | tool/utils.py:54-55 | the caption line appears exactly once after `\centering` when the caption is non-empty and the position is `"上"`, and exactly once after `\end{tabular}` when non-empty and `"下"`; it appears nowhere else |
| SimpleLatex.CaptionOnce | tool/utils.py:54-75 | the two caption positions exclude each other |
| SimpleLatex.LabelPlacement | tool/utils.py:77-78 | the label line appears only when the label is non-empty, as the line before `\end{table}`, after any bottom caption |
| HeaderSpans.RunWidth | tool/utils.py:99-103 | the run at column `c` has width between 1 and `n - c`; all its cells equal the cell at `c`; it stops at `n` or at a different cell |
| HeaderSpans.RunWidthUnique | tool/utils.py:102-103 | any width with those properties is the run's width, so the run is maximal and unique |
| HeaderSpans.ScanRun | tool/utils.py:99-103 | the inner `colspan += 1` loop computes exactly that maximal run |
| HeaderSpans.RowSpansTile | tool/utils.py:97-133 | the spans the cursor visits tile the row: each has width ≥ 1; each starts where the previous one ends; the first starts at 0; the last ends at `n_cols` |
| HeaderSpans.RowSpansWidth | tool/utils.py:97-133 | the widths of a row's spans sum to exactly `n_cols` |
| HeaderSpans.RowSpansMaximal | tool/utils.py:97-133 | every span is a maximal run of cells equal to its start cell, so neighbouring spans hold different values |
| HeaderSpans.TilesOrdered | tool/utils.py:133 | the spans of a tiling are disjoint and increasing |
| HeaderSpans.RowSpansByColumns | tool/utils.py:97-133 | the cursor finds exactly the spans a column-by-column reference finds: one at each column where the value changes |
| HeaderSpans.ColumnSpansMember | tool/utils.py:97-103 | the reference holds a span exactly when it starts at a column where the value changes and has the run's width there |
| PreviewHtml.GeneratePreviewHtml | tool/utils.py:84-145 | the source's loops produce the expected HTML lines joined by newlines |
| PreviewHtml.AppendHeaderRow | tool/utils.py:94-134 | the cursor loop over a header row emits `<tr>`, the `<th>` of each span it stops at that is not covered from above, then `</tr>` |
| PreviewHtml.DrawSpan | tool/utils.py:97-133 | one cursor stop measures the run; it appends a `<th>` unless the row above holds the same value at that column; it advances by `colspan` either way |
| PreviewHtml.ThAttributes | tool/utils.py:127-129 | the attribute string starts with the style; it contains ` colspan="` exactly when the width is above 1 and ` rowspan="` exactly when the height is above 1 |
| PreviewHtml.AppendBodyRow | tool/utils.py:137-142 | a body row becomes `<tr>`, one `<td>` per cell, then `</tr>` |
| PreviewHtml.DrawnCellsExactly | tool/utils.py:97-133 | a header row draws a `<th>` at column `k` exactly when a run starts at `k` and the row above does not hold the same value at `k` |
| PreviewHtml.DrawnCellShape | tool/utils.py:106-117 | a drawn cell shows its start value; its `colspan` is the run's width; its `rowspan` is 2 exactly when the next header row holds the same value at the start column, and 1 otherwise |
| PreviewHtml.ThAttrsStyle | tool/utils.py:124-129 | the attributes always start with the style, and are the bare style exactly when both counts are at most 1 |
| PreviewHtml.ThAttrsColspan | tool/utils.py:127-128 | ` colspan="` occurs anywhere in the attributes exactly when the width is above 1; it then stands right after the style, and the digits between its quotes read back as the width |
| PreviewHtml.ThAttrsRowspan | tool/utils.py:127-129 | ` rowspan="` occurs anywhere in the attributes exactly when the height is above 1; it then ends the attributes, and the digits between its quotes read back as the height |
| PreviewHtml.RowsBalanced | tool/utils.py:94-142 | there is exactly one `<tr>` and one `</tr>` per header row and per body row |
| PreviewHtml.BodyRowShape | tool/utils.py:137-142 | a body row has one `<td>` per cell, in order, and `None` is shown as `""` |
| ComplexLatex.GenerateComplexLatex | tool/utils.py:147-196 | the source's loops produce the expected lines joined by newlines |
| ComplexLatex.WriteOpening | tool/utils.py:149-158 | the opening lines are appended in order up to `\toprule` |
| ComplexLatex.ChooseCellText | tool/utils.py:171-175 | the source's branches for the cell text give `CellText` |
| ComplexLatex.DrawEntry | tool/utils.py:165-184 | one cursor stop measures the run, appends exactly one entry, and queues the span's `\cmidrule` only when one is wanted |
| ComplexLatex.ScanHeaderRow | tool/utils.py:161-185 | the cursor loop yields one entry per span of the row and the rules of the wanted spans, in order |
| ComplexLatex.WriteHeaderRow | tool/utils.py:186-187 | a header row is one `&`-joined line, followed by the rule line only when rules were queued |
| ComplexLatex.WriteBodyRows | tool/utils.py:190-192 | one `&`-joined line per body row, with `None` written as `""` |
| ComplexLatex.CellTextCases | tool/utils.py:171-175 | the cell text is `\multirow{2}{*}{v}` exactly when the cell below is equal and the cell above is not; it is `""` whenever the cell above is equal; otherwise it is the value |
| ComplexLatex.RowEntries | tool/utils.py:165-184 | every span yields exactly one entry, wrapped in `\multicolumn{w}{c}{…}` exactly when it is wider than one column |
| ComplexLatex.RowRules | tool/utils.py:179-187 | rules are queued exactly for the row's non-blank spans wider than one column, and never in the last header row; they are disjoint and increasing, within columns 1..n, one `\cmidrule` each in order; the rule line exists only when there is a rule |
| ComplexLatex.RuleSpansMember | tool/utils.py:179-181 | a span is among the queued rules exactly when it is one of the row's spans and a rule is wanted for it |
| ComplexLatex.RuleSpansIncreasing | tool/utils.py:181 | the rules keep the order of the spans, so they are disjoint and increasing |
| ComplexLatex.PlacementBrackets | tool/utils.py:150-151 | the float opener ends in `]` exactly when a placement is given |
| ComplexLatex.Layout | tool/utils.py:150-195 | line by line: the opener, `\centering`, the caption if non-empty, the label if non-empty, the tabular opener with one `c` per body column, `\toprule`, the header lines, `\midrule`, one line per body row, `\bottomrule`, `\end{tabular}`, `\end{table}` |
| ComplexLatex.FrameRulesOnce | tool/utils.py:158-193 | `\toprule`, `\midrule` and `\bottomrule` each appear exactly once, whatever the header and body |
| Scenarios.MergedHeaderSpans | tool/utils.py:97-103 | in `[["A","A","B"],["A","A","C"]]` both rows split into spans of widths 2 and 1 |
| Scenarios.MergedHeaderPreview | tool/utils.py:106-133 | the preview draws "A" with `colspan` 2 and `rowspan` 2, then "B"; in the second row it draws only "C" |
| Scenarios.MergedHeaderLatexTop | tool/utils.py:165-187 | the first row is `\multicolumn{2}{c}{\multirow{2}{*}{A}} & B \\`, followed by `\cmidrule(lr){1-2}` |
| Scenarios.MergedHeaderLatexBottom | tool/utils.py:165-187 | the second row is `\multicolumn{2}{c}{} & C \\`, with no rule line |
| Scenarios.PastedParse | tool/utils.py:9-39 | `"\tX\tY\nR1\t1\t2\nR2\t3\t4"` with both flags parses to column labels `["Y",""]`, row labels `["R1","R2"]` and data `[["1","2"],["3","4"]]` |

## Left out

- pandas itself is not modelled: `DataFrame` construction, `iloc`,
  `reset_index`, `set_index`, `values.tolist()` and `iterrows`. A table is
  modelled as plain sequences, as described above. The row-index name that
  `set_index` keeps (the consumed header label) is not modelled, because no
  renderer prints it.
- `set_index` when another column shares the first column's label is not
  modelled. pandas does not behave like the model there; the model removes
  column 0 only.
- `str()` of non-string cells is not modelled. Header cells are strings.
  Body cells are `Option<string>`, rendered as their text or `""` for `None`.
  Python's `"None"` for a `None` header cell is not modelled.
- The inline CSS of the preview is kept as fixed strings. Its content
  carries no behaviour; the model only uses that the header-cell style
  holds no `=`.
- `n_cols` is a parameter, not read from a DataFrame. For the preview it is
  the header's column count. For the complex renderer it is the body's column
  count. The header rows are only required to have at least that many cells.
  The source would raise `IndexError` otherwise, and that error path is not
  modelled.
- The callers in tool/tab1.py, tool/tab2.py, tool/tab3.py and main.py are not
  part of this model. They are Streamlit widgets, session state, download
  buttons, the CSV/HTML exports (`to_csv`, `to_html`) and error display.
- Python's `str.isspace` is modelled for the ASCII whitespace and the Unicode
  space and line separators. It is not derived from the Unicode database.
