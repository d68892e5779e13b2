/**
  `generate_preview_html` of tool/utils.py: an HTML table that shows the
  merged header cells. Every header row becomes a `<tr>` whose `<th>` cells
  come from the shared span scan: a run of equal cells becomes one cell with
  a `colspan`, a cell equal to the one below it gets `rowspan="2"`, and a
  cell equal to the one above it is not drawn at all (the row above already
  covers it). Every body row becomes a `<tr>` of `<td>` cells.
 */
module PreviewHtml {
  import opened Text
  import opened Wrappers
  import opened Sequences
  import opened HeaderSpans

  const TableOpen := "<table style=\"border-collapse: collapse; width: 100%; text-align: center; font-family: sans-serif;\">"
  const TableClose := "</table>"
  const RowOpen := "<tr>"
  const RowClose := "</tr>"
  const BgColor := "#f0f2f6"
  const Border := "1px solid #ddd"
  /** The inline style of a header cell, put together from its colour and
      border as the source's format string does. */
  const ThStyle := "background-color: " + BgColor + "; border: " + Border + "; padding: 8px; font-weight: bold;"
  const StyleAttr := "style=\"" + ThStyle + "\""
  const TdStyle := "border: 1px solid #ddd; padding: 6px;"

  /** A drawn header cell: its text, the column it starts at, and how many
      columns and rows it covers. */
  datatype HeaderCell = HeaderCell(value: string, start: nat, colspan: nat, rowspan: nat)

  /** The cell drawn for span `s` of header row `r`: the value at its start,
      its width, and two rows when the row below holds the same value at the
      start column. */
  function CellOf(header: seq<seq<string>>, r: nat, n: nat, s: Span): HeaderCell
    requires r < |header| && Covers(header, n) && s.start < n
  {
    HeaderCell(header[r][s.start], s.start, s.width, if EqualBelow(header, r, s.start) then 2 else 1)
  }

  /** The cells drawn for the spans of header row `r`, in order: one per
      span, except for the spans whose start cell equals the cell above. */
  function RowCells(header: seq<seq<string>>, r: nat, n: nat, spans: seq<Span>): seq<HeaderCell>
    requires r < |header| && Covers(header, n) && Within(spans, n)
  {
    if spans == [] then []
    else
      var s := spans[|spans| - 1];
      RowCells(header, r, n, spans[..|spans| - 1])
      + (if EqualAbove(header, r, s.start) then [] else [CellOf(header, r, n, s)])
  }

  /** How attribute `name` opens inside a tag: ` name="`. */
  function AttrKey(name: string): string {
    " " + name + "=\""
  }

  /** The attribute `name="v"` when `v` is above 1, and nothing otherwise. */
  function SpanAttr(name: string, v: nat): string {
    if v > 1 then AttrKey(name) + NatToString(v) + "\"" else ""
  }

  /** The attributes of a `<th>`: the style, then `colspan` when it is above
      1, then `rowspan` when it is above 1. */
  function ThAttrs(colspan: nat, rowspan: nat): string {
    StyleAttr + SpanAttr("colspan", colspan) + SpanAttr("rowspan", rowspan)
  }

  /** `sub` occurs in `s` starting at position `i`. */
  predicate OccursAt(s: string, sub: string, i: int) {
    0 <= i && i + |sub| <= |s| && s[i..i + |sub|] == sub
  }

  /** `sub` occurs somewhere in `s`. */
  predicate Contains(s: string, sub: string) {
    exists i :: 0 <= i <= |s| && OccursAt(s, sub, i)
  }

  function ThLine(cell: HeaderCell): string {
    "<th " + ThAttrs(cell.colspan, cell.rowspan) + ">" + cell.value + "</th>"
  }

  function ThLines(cells: seq<HeaderCell>): (lines: seq<string>)
    ensures |lines| == |cells|
  {
    if cells == [] then [] else ThLines(cells[..|cells| - 1]) + [ThLine(cells[|cells| - 1])]
  }

  /** Line `i` is the `<th>` of cell `i`. */
  lemma {:induction false} ThLinesAt(cells: seq<HeaderCell>, i: nat)
    requires i < |cells|
    ensures ThLines(cells)[i] == ThLine(cells[i])
    decreases |cells|
  {
    if i < |cells| - 1 {
      var init := cells[..|cells| - 1];
      ThLinesAt(init, i);
      assert init[i] == cells[i];
    }
  }

  /** The cells drawn for header row `r`: those of the spans the cursor visits. */
  function DrawnCells(header: seq<seq<string>>, r: nat, n: nat): seq<HeaderCell>
    requires r < |header| && Covers(header, n)
  {
    RowSpansWithin(header[r], n);
    RowCells(header, r, n, RowSpans(header[r], 0, n))
  }

  /** The lines of header row `r`. */
  function HeaderRowLines(header: seq<seq<string>>, r: nat, n: nat): seq<string>
    requires r < |header| && Covers(header, n)
  {
    [RowOpen] + ThLines(DrawnCells(header, r, n)) + [RowClose]
  }

  /** The lines of the first `k` header rows. */
  function HeaderLines(header: seq<seq<string>>, n: nat, k: nat): seq<string>
    requires k <= |header| && Covers(header, n)
  {
    if k == 0 then [] else HeaderLines(header, n, k - 1) + HeaderRowLines(header, k - 1, n)
  }

  /** A body cell; a missing value (`None`) shows as empty text. */
  function TdLine(v: Option<string>): string {
    "<td style=\"" + TdStyle + "\">" + (if v.Some? then v.value else "") + "</td>"
  }

  function TdLines(row: seq<Option<string>>): (lines: seq<string>)
    ensures |lines| == |row|
    ensures forall i :: 0 <= i < |row| ==> lines[i] == TdLine(row[i])
  {
    if row == [] then [] else TdLines(row[..|row| - 1]) + [TdLine(row[|row| - 1])]
  }

  function BodyRowLines(row: seq<Option<string>>): seq<string> {
    [RowOpen] + TdLines(row) + [RowClose]
  }

  /** The lines of the first `k` body rows. */
  function BodyLines(body: seq<seq<Option<string>>>, k: nat): seq<string>
    requires k <= |body|
  {
    if k == 0 then [] else BodyLines(body, k - 1) + BodyRowLines(body[k - 1])
  }

  /** The lines of the preview; the output is these lines joined by newlines. */
  function HtmlLines(header: seq<seq<string>>, n: nat, body: seq<seq<Option<string>>>): seq<string>
    requires Covers(header, n)
  {
    [TableOpen] + HeaderLines(header, n, |header|) + BodyLines(body, |body|) + [TableClose]
  }

  /** Drawing one more span adds its cell unless the cell above is equal. */
  lemma RowCellsSnoc(header: seq<seq<string>>, r: nat, n: nat, done: seq<Span>, s: Span)
    requires r < |header| && Covers(header, n) && Within(done, n) && s.start < n
    ensures Within(done + [s], n)
    ensures RowCells(header, r, n, done + [s])
         == RowCells(header, r, n, done) + (if EqualAbove(header, r, s.start) then [] else [CellOf(header, r, n, s)])
  {
    assert (done + [s])[..|done|] == done;
  }

  lemma ThLinesSnoc(cells: seq<HeaderCell>, cell: HeaderCell)
    ensures ThLines(cells + [cell]) == ThLines(cells) + [ThLine(cell)]
  {
    assert (cells + [cell])[..|cells|] == cells;
  }

  /** The lines of the drawn cells grow as `DrawSpan` grows the output. */
  lemma ThLinesStep(header: seq<seq<string>>, r: nat, n: nat, done: seq<Span>, s: Span)
    requires r < |header| && Covers(header, n) && Within(done, n) && s.start < n
    ensures Within(done + [s], n)
    ensures ThLines(RowCells(header, r, n, done + [s]))
         == ThLines(RowCells(header, r, n, done))
            + (if EqualAbove(header, r, s.start) then [] else [ThLine(CellOf(header, r, n, s))])
  {
    RowCellsSnoc(header, r, n, done, s);
    if !EqualAbove(header, r, s.start) {
      ThLinesSnoc(RowCells(header, r, n, done), CellOf(header, r, n, s));
    } else {
      AppendEmpty(RowCells(header, r, n, done));
      AppendEmpty(ThLines(RowCells(header, r, n, done)));
    }
  }

  /** The source's attribute string for a `<th>`: the style, with
      `colspan` present exactly when the width is above 1 and `rowspan`
      present exactly when the height is above 1. */
  method ThAttributes(colspan: nat, rowspan: nat) returns (attrs: string)
    ensures attrs == ThAttrs(colspan, rowspan)
    ensures attrs[..|StyleAttr|] == StyleAttr
    ensures Contains(attrs, AttrKey("colspan")) <==> colspan > 1
    ensures Contains(attrs, AttrKey("rowspan")) <==> rowspan > 1
  {
    ThAttrsStyle(colspan, rowspan);
    ThAttrsColspan(colspan, rowspan);
    ThAttrsRowspan(colspan, rowspan);
    attrs := StyleAttr;
    if colspan > 1 {
      attrs := attrs + (AttrKey("colspan") + NatToString(colspan) + "\"");
    } else {
      AppendEmpty(attrs);
    }
    if rowspan > 1 {
      attrs := attrs + (AttrKey("rowspan") + NatToString(rowspan) + "\"");
    } else {
      AppendEmpty(attrs);
    }
  }

  /** One stop of the cursor at column `c` of header row `r`: the run there is
      measured, and its `<th>` is appended unless the cell above is equal. */
  method DrawSpan(html: seq<string>, header: seq<seq<string>>, r: nat, nCols: nat, c: nat)
    returns (html': seq<string>, colspan: nat)
    requires r < |header| && Covers(header, nCols) && c < nCols
    ensures colspan == RunWidth(header[r], c, nCols)
    ensures html' == html + (if EqualAbove(header, r, c) then [] else [ThLine(CellOf(header, r, nCols, Span(c, colspan)))])
  {
    var row := header[r];
    var currentVal := row[c];
    colspan := ScanRun(row, c, nCols);
    var rowspan := 1;
    var skipCell := false;
    if r + 1 < |header| {
      if header[r + 1][c] == currentVal {
        rowspan := 2;
      }
    }
    if r > 0 {
      if header[r - 1][c] == currentVal {
        skipCell := true;
      }
    }
    html' := html;
    if !skipCell {
      var attrs := ThAttributes(colspan, rowspan);
      html' := html + ["<th " + attrs + ">" + currentVal + "</th>"];
    }
  }

  /** One header row, as the source's cursor loop draws it: the cursor jumps
      from span to span, so the spans it stops at are the row's spans. */
  method AppendHeaderRow(html: seq<string>, header: seq<seq<string>>, r: nat, nCols: nat)
    returns (html': seq<string>)
    requires r < |header| && Covers(header, nCols)
    ensures html' == html + HeaderRowLines(header, r, nCols)
  {
    html' := html + [RowOpen];
    ghost var start := html';
    ghost var done: seq<Span> := [];
    var c := 0;
    while c < nCols
      invariant c <= nCols && Within(done, nCols)
      invariant RowSpans(header[r], 0, nCols) == done + RowSpans(header[r], c, nCols)
      invariant html' == start + ThLines(RowCells(header, r, nCols, done))
      decreases nCols - c
    {
      var colspan;
      html', colspan := DrawSpan(html', header, r, nCols, c);
      ghost var s := Span(c, colspan);
      ThLinesStep(header, r, nCols, done, s);
      Assoc3(start, ThLines(RowCells(header, r, nCols, done)),
             if EqualAbove(header, r, c) then [] else [ThLine(CellOf(header, r, nCols, s))]);
      RowSpansAdvance(header[r], c, nCols, done, RowSpans(header[r], 0, nCols));
      done := done + [Span(c, colspan)];
      c := c + colspan;
    }
    assert done == RowSpans(header[r], 0, nCols);
    Assoc4(html, [RowOpen], ThLines(RowCells(header, r, nCols, done)), [RowClose]);
    html' := html' + [RowClose];
  }

  /** One body row: a `<td>` per cell. */
  method AppendBodyRow(html: seq<string>, row: seq<Option<string>>) returns (html': seq<string>)
    ensures html' == html + BodyRowLines(row)
  {
    html' := html + [RowOpen];
    ghost var start := html';
    for j := 0 to |row|
      invariant html' == start + TdLines(row[..j])
    {
      var val := row[j];
      var valStr := if val.Some? then val.value else "";
      assert row[..j + 1][..j] == row[..j];
      Assoc3(start, TdLines(row[..j]), [TdLine(val)]);
      html' := html' + ["<td style=\"" + TdStyle + "\">" + valStr + "</td>"];
    }
    assert row[..|row|] == row;
    Assoc4(html, [RowOpen], TdLines(row), [RowClose]);
    html' := html' + [RowClose];
  }

  /** The header part of the preview: the opening tag, then each header row. */
  method WriteHeaderRows(header: seq<seq<string>>, nCols: nat) returns (html: seq<string>)
    requires Covers(header, nCols)
    ensures html == [TableOpen] + HeaderLines(header, nCols, |header|)
  {
    html := [TableOpen];
    for r := 0 to |header|
      invariant html == [TableOpen] + HeaderLines(header, nCols, r)
    {
      Assoc3([TableOpen], HeaderLines(header, nCols, r), HeaderRowLines(header, r, nCols));
      html := AppendHeaderRow(html, header, r, nCols);
    }
  }

  /** The body part of the preview: each body row after the lines so far. */
  method WriteBodyRows(top: seq<string>, body: seq<seq<Option<string>>>) returns (html: seq<string>)
    ensures html == top + BodyLines(body, |body|)
  {
    html := top;
    for i := 0 to |body|
      invariant html == top + BodyLines(body, i)
    {
      Assoc3(top, BodyLines(body, i), BodyRowLines(body[i]));
      html := AppendBodyRow(html, body[i]);
    }
  }

  /** The preview as the source builds it: a list of lines grown row by row
      and joined with newlines at the end. */
  method GeneratePreviewHtml(header: seq<seq<string>>, nCols: nat, body: seq<seq<Option<string>>>)
    returns (out: string)
    requires Covers(header, nCols)
    ensures out == Join("\n", HtmlLines(header, nCols, body))
  {
    var html := WriteHeaderRows(header, nCols);
    html := WriteBodyRows(html, body);
    html := html + [TableClose];
    out := Join("\n", html);
  }

  /** A drawn cell comes from one of the spans, and every span whose start
      cell differs from the cell above is drawn. */
  lemma {:induction false} RowCellsMember(header: seq<seq<string>>, r: nat, n: nat, spans: seq<Span>, cell: HeaderCell)
    requires r < |header| && Covers(header, n) && Within(spans, n)
    ensures cell in RowCells(header, r, n, spans)
        <==> exists i :: 0 <= i < |spans| && !EqualAbove(header, r, spans[i].start)
                         && cell == CellOf(header, r, n, spans[i])
    decreases |spans|
  {
    if spans != [] {
      var init := spans[..|spans| - 1];
      var s := spans[|spans| - 1];
      RowCellsMember(header, r, n, init, cell);
      var extra := if EqualAbove(header, r, s.start) then [] else [CellOf(header, r, n, s)];
      assert RowCells(header, r, n, spans) == RowCells(header, r, n, init) + extra;
      if cell in RowCells(header, r, n, spans) {
        if cell in RowCells(header, r, n, init) {
          var i :| 0 <= i < |init| && !EqualAbove(header, r, init[i].start) && cell == CellOf(header, r, n, init[i]);
          assert spans[i] == init[i];
        } else {
          assert !EqualAbove(header, r, s.start) && cell == CellOf(header, r, n, s);
        }
      }
      if exists i :: 0 <= i < |spans| && !EqualAbove(header, r, spans[i].start) && cell == CellOf(header, r, n, spans[i]) {
        var i :| 0 <= i < |spans| && !EqualAbove(header, r, spans[i].start) && cell == CellOf(header, r, n, spans[i]);
        if i < |init| {
          assert init[i] == spans[i];
        }
      }
    }
  }

  /** The header cells of a row, column by column: a `<th>` is drawn for
      column `k` exactly when a run of equal cells starts at `k` and the row
      above does not hold the same value at `k`; it spans the run's width,
      and two rows exactly when the row below holds the same value at `k`.
      Skipping a cell does not change where the next ones start. */
  lemma DrawnCellsExactly(header: seq<seq<string>>, r: nat, n: nat, cell: HeaderCell)
    requires r < |header| && Covers(header, n)
    ensures cell in DrawnCells(header, r, n)
        <==> exists k :: 0 <= k < n && IsRunStart(header[r], 0, k) && !EqualAbove(header, r, k)
                         && cell == CellOf(header, r, n, Span(k, RunWidth(header[r], k, n)))
  {
    var row := header[r];
    var spans := RowSpans(row, 0, n);
    RowSpansWithin(row, n);
    RowCellsMember(header, r, n, spans, cell);
    RowSpansByColumns(row, 0, n);
    if cell in DrawnCells(header, r, n) {
      var i :| 0 <= i < |spans| && !EqualAbove(header, r, spans[i].start) && cell == CellOf(header, r, n, spans[i]);
      ColumnSpansMember(row, 0, 0, n, spans[i]);
    }
    if exists k :: 0 <= k < n && IsRunStart(row, 0, k) && !EqualAbove(header, r, k)
                   && cell == CellOf(header, r, n, Span(k, RunWidth(row, k, n))) {
      var k :| 0 <= k < n && IsRunStart(row, 0, k) && !EqualAbove(header, r, k)
               && cell == CellOf(header, r, n, Span(k, RunWidth(row, k, n)));
      var s := Span(k, RunWidth(row, k, n));
      ColumnSpansMember(row, 0, 0, n, s);
      var i :| 0 <= i < |spans| && spans[i] == s;
    }
  }

  /** What each drawn cell holds: the value at its start column, the width of
      the run there as `colspan`, `rowspan` 2 exactly when the row below holds
      the same value at the start column and 1 otherwise; and the row above
      never holds the same value there. */
  lemma DrawnCellShape(header: seq<seq<string>>, r: nat, n: nat, cell: HeaderCell)
    requires r < |header| && Covers(header, n)
    requires cell in DrawnCells(header, r, n)
    ensures cell.start < n && IsRunStart(header[r], 0, cell.start)
    ensures cell.value == header[r][cell.start]
    ensures cell.colspan == RunWidth(header[r], cell.start, n) >= 1
    ensures cell.rowspan == 2 <==> EqualBelow(header, r, cell.start)
    ensures cell.rowspan == 1 <==> !EqualBelow(header, r, cell.start)
    ensures !EqualAbove(header, r, cell.start)
  {
    DrawnCellsExactly(header, r, n, cell);
  }

  /** The only `=` of the style attribute is the one after `style`. */
  lemma StyleEqualSign(j: nat)
    requires j < |StyleAttr| && StyleAttr[j] == '='
    ensures j == 5
  {
    assert '=' !in ThStyle;
  }

  /** The only `=` of an attribute whose name has none is the one after its
      name. */
  lemma AttrEqualSign(name: string, v: nat, k: nat)
    requires '=' !in name
    requires k < |SpanAttr(name, v)| && SpanAttr(name, v)[k] == '='
    ensures k == |name| + 1
  {
    var digits := NatToString(v);
    var a := AttrKey(name) + digits + "\"";
    assert SpanAttr(name, v) == a;
  }

  /** How an attribute opens: a space, its name, then `="`. */
  lemma KeyChars(name: string)
    ensures |AttrKey(name)| == |name| + 3 && AttrKey(name)[|name| + 1] == '='
    ensures |name| > 0 ==> AttrKey(name)[1] == name[0]
  {
  }

  /** Right after `front`, a written attribute shows the first letter of
      its name. */
  lemma AfterFront(front: string, name: string, v: nat)
    requires v > 1 && |name| > 0
    ensures |front + SpanAttr(name, v)| > |front| + |name| + 2
    ensures (front + SpanAttr(name, v))[|front| + 1] == name[0]
  {
    var a := SpanAttr(name, v);
    assert a == " " + name + "=\"" + NatToString(v) + "\"";
    assert (front + a)[|front| + 1] == a[1];
  }

  /** After a `front` whose every `=` comes early, an attribute other than
      the one written, whose name differs in its first letter, occurs
      nowhere. */
  lemma KeyAbsentAfter(front: string, name: string, other: string, v: nat)
    requires |name| == |other| && |name| > 0 && name[0] != other[0] && '=' !in other
    requires forall j :: 0 <= j < |front| && front[j] == '=' ==> j <= |name|
    ensures !Contains(front + SpanAttr(other, v), AttrKey(name))
  {
    var s := front + SpanAttr(other, v);
    var key := AttrKey(name);
    KeyChars(name);
    if v > 1 {
      AfterFront(front, other, v);
    }
    if i :| 0 <= i <= |s| && OccursAt(s, key, i) {
      var j := i + |name| + 1;
      assert s[j] == key[|name| + 1];
      if j >= |front| {
        assert s[j] == SpanAttr(other, v)[j - |front|];
        AttrEqualSign(other, v, j - |front|);
      }
    }
  }

  /** An attribute other than the one written, whose name differs in its
      first letter, does not occur anywhere in the style followed by it. */
  lemma KeyAbsent(name: string, other: string, v: nat)
    requires |name| == |other| == 7 && name[0] != other[0]
    requires '=' !in other
    ensures !Contains(StyleAttr + SpanAttr(other, v), AttrKey(name))
  {
    forall j | 0 <= j < |StyleAttr| && StyleAttr[j] == '='
      ensures j <= |name|
    {
      StyleEqualSign(j);
    }
    KeyAbsentAfter(StyleAttr, name, other, v);
  }

  /** The pieces of a string that holds `key`, `digits` and a quote right
      after `front`. */
  lemma QuotedHead(front: string, key: string, digits: string, tail: string)
    ensures var t := front + (key + digits + "\"") + tail;
      var p := |front| + |key|;
      var q := p + |digits|;
      q < |t| && t[|front|..p] == key && t[q] == '"' && t[p..q] == digits
  {
    var t := front + (key + digits + "\"") + tail;
    assert t[|front|..] == key + digits + "\"" + tail;
  }

  /** The pieces of a string that ends with `key`, `digits` and a quote. */
  lemma QuotedTail(front: string, key: string, digits: string)
    ensures var t := front + (key + digits + "\"");
      var q := |t| - 1;
      var p := q - |digits|;
      p == |front| + |key| && t[p - |key|..p] == key && t[q] == '"' && t[p..q] == digits
  {
    var t := front + (key + digits + "\"");
    var p := |front| + |key|;
    assert t[|front|..] == key + digits + "\"";
  }

  /** The attribute string starts with the style, and is the bare style
      exactly when both counts are at most 1. */
  lemma ThAttrsStyle(colspan: nat, rowspan: nat)
    ensures |ThAttrs(colspan, rowspan)| >= |StyleAttr|
    ensures ThAttrs(colspan, rowspan)[..|StyleAttr|] == StyleAttr
    ensures ThAttrs(colspan, rowspan) == StyleAttr <==> colspan <= 1 && rowspan <= 1
  {
    var rest := SpanAttr("colspan", colspan) + SpanAttr("rowspan", rowspan);
    assert ThAttrs(colspan, rowspan) == StyleAttr + rest;
    assert (StyleAttr + rest)[..|StyleAttr|] == StyleAttr;
  }

  /** A written `colspan` stands right after the style: its name, then its
      digits, then a quote. */
  lemma ColspanWritten(colspan: nat, rowspan: nat)
    requires colspan > 1
    ensures var t := ThAttrs(colspan, rowspan);
      var p := |StyleAttr| + 10;
      var q := p + |NatToString(colspan)|;
      q < |t| && OccursAt(t, AttrKey("colspan"), p - 10) && t[q] == '"' && t[p..q] == NatToString(colspan)
  {
    var key := AttrKey("colspan");
    var digits := NatToString(colspan);
    assert SpanAttr("colspan", colspan) == key + digits + "\"";
    QuotedHead(StyleAttr, key, digits, SpanAttr("rowspan", rowspan));
    KeyChars("colspan");
  }

  /** A written `rowspan` ends the attributes: its name, then its digits,
      then a quote. */
  lemma RowspanWritten(colspan: nat, rowspan: nat)
    requires rowspan > 1
    ensures var t := ThAttrs(colspan, rowspan);
      var q := |t| - 1;
      var p := q - |NatToString(rowspan)|;
      p == |StyleAttr| + |SpanAttr("colspan", colspan)| + 10 && OccursAt(t, AttrKey("rowspan"), p - 10)
      && t[q] == '"' && t[p..q] == NatToString(rowspan)
  {
    var key := AttrKey("rowspan");
    var digits := NatToString(rowspan);
    assert SpanAttr("rowspan", rowspan) == key + digits + "\"";
    QuotedTail(StyleAttr + SpanAttr("colspan", colspan), key, digits);
    KeyChars("rowspan");
  }

  /** A width of at most 1 leaves `colspan` out altogether. */
  lemma ColspanUnwritten(colspan: nat, rowspan: nat)
    requires colspan <= 1
    ensures !Contains(ThAttrs(colspan, rowspan), AttrKey("colspan"))
  {
    var tail := SpanAttr("rowspan", rowspan);
    assert SpanAttr("colspan", colspan) == [];
    AppendEmpty(StyleAttr);
    assert ThAttrs(colspan, rowspan) == StyleAttr + tail;
    KeyAbsent("colspan", "rowspan", rowspan);
  }

  /** A height of at most 1 leaves `rowspan` out altogether. */
  lemma RowspanUnwritten(colspan: nat, rowspan: nat)
    requires rowspan <= 1
    ensures !Contains(ThAttrs(colspan, rowspan), AttrKey("rowspan"))
  {
    var front := StyleAttr + SpanAttr("colspan", colspan);
    assert SpanAttr("rowspan", rowspan) == [];
    AppendEmpty(front);
    assert ThAttrs(colspan, rowspan) == front;
    KeyAbsent("rowspan", "colspan", colspan);
  }

  /** `colspan` occurs in the attributes of a `<th>` exactly when the
      count is above 1, right after the style, and its quoted value reads
      back as the count. */
  lemma ThAttrsColspan(colspan: nat, rowspan: nat)
    ensures Contains(ThAttrs(colspan, rowspan), AttrKey("colspan")) <==> colspan > 1
    ensures colspan > 1 ==>
      var t := ThAttrs(colspan, rowspan);
      var p := |StyleAttr| + 10;
      var q := p + |NatToString(colspan)|;
      q < |t| && t[p - 10..p] == AttrKey("colspan") && t[q] == '"' && DecimalValue(t[p..q]) == colspan
  {
    if colspan > 1 {
      ColspanWritten(colspan, rowspan);
      NatToStringRoundTrip(colspan);
    } else {
      ColspanUnwritten(colspan, rowspan);
    }
  }

  /** `rowspan` occurs in the attributes of a `<th>` exactly when the
      count is above 1, at the very end, and its quoted value reads back as
      the count. */
  lemma ThAttrsRowspan(colspan: nat, rowspan: nat)
    ensures Contains(ThAttrs(colspan, rowspan), AttrKey("rowspan")) <==> rowspan > 1
    ensures rowspan > 1 ==>
      var t := ThAttrs(colspan, rowspan);
      var q := |t| - 1;
      var p := q - |NatToString(rowspan)|;
      p >= |StyleAttr| + 10 && t[p - 10..p] == AttrKey("rowspan") && t[q] == '"' && DecimalValue(t[p..q]) == rowspan
  {
    if rowspan > 1 {
      RowspanWritten(colspan, rowspan);
      NatToStringRoundTrip(rowspan);
    } else {
      RowspanUnwritten(colspan, rowspan);
    }
  }

  /** The two row markers. */
  predicate RowMarker(x: string) {
    x == RowOpen || x == RowClose
  }

  /** A line whose third character is a letter is neither row marker. */
  lemma NotMarker(l: string)
    requires |l| > 2 && (l[2] == 'h' || l[2] == 'd')
    ensures !RowMarker(l)
  {
    assert RowOpen[2] == 'r' && RowClose[2] == 't';
  }

  lemma ThLineNotMarker(cell: HeaderCell)
    ensures !RowMarker(ThLine(cell))
  {
    assert ThLine(cell)[2] == 'h';
    NotMarker(ThLine(cell));
  }

  lemma TdLineNotMarker(v: Option<string>)
    ensures !RowMarker(TdLine(v))
  {
    assert TdLine(v)[2] == 'd';
    NotMarker(TdLine(v));
  }

  /** No `<th>` line is a row marker. */
  lemma ThLinesNoMarker(cells: seq<HeaderCell>, x: string)
    requires RowMarker(x)
    ensures Count(ThLines(cells), x) == 0
  {
    var lines := ThLines(cells);
    forall i | 0 <= i < |lines| ensures lines[i] != x {
      ThLinesAt(cells, i);
      ThLineNotMarker(cells[i]);
    }
    CountAbsent(lines, x);
  }

  /** No `<td>` line is a row marker. */
  lemma TdLinesNoMarker(row: seq<Option<string>>, x: string)
    requires RowMarker(x)
    ensures Count(TdLines(row), x) == 0
  {
    var lines := TdLines(row);
    forall i | 0 <= i < |lines| ensures lines[i] != x {
      TdLineNotMarker(row[i]);
    }
    CountAbsent(lines, x);
  }

  /** Framing a row's cells with the markers puts each marker in once. */
  lemma FramedOnce(cells: seq<string>, x: string)
    requires RowMarker(x) && Count(cells, x) == 0
    ensures Count([RowOpen] + cells + [RowClose], x) == 1
  {
    CountConcat([RowOpen], cells, x);
    CountConcat([RowOpen] + cells, [RowClose], x);
    CountSingle(RowOpen, x);
    CountSingle(RowClose, x);
  }

  lemma HeaderRowMarkers(header: seq<seq<string>>, r: nat, n: nat, x: string)
    requires r < |header| && Covers(header, n) && RowMarker(x)
    ensures Count(HeaderRowLines(header, r, n), x) == 1
  {
    ThLinesNoMarker(DrawnCells(header, r, n), x);
    FramedOnce(ThLines(DrawnCells(header, r, n)), x);
  }

  lemma {:induction false} HeaderLinesMarkers(header: seq<seq<string>>, n: nat, k: nat, x: string)
    requires k <= |header| && Covers(header, n)
    requires forall r :: 0 <= r < k ==> Count(HeaderRowLines(header, r, n), x) == 1
    ensures Count(HeaderLines(header, n, k), x) == k
  {
    if k > 0 {
      HeaderLinesMarkers(header, n, k - 1, x);
      CountStep(HeaderLines(header, n, k - 1), HeaderRowLines(header, k - 1, n), x, k - 1);
    }
  }

  lemma {:induction false} BodyLinesMarkers(body: seq<seq<Option<string>>>, k: nat, x: string)
    requires k <= |body| && RowMarker(x)
    ensures Count(BodyLines(body, k), x) == k
  {
    if k > 0 {
      BodyLinesMarkers(body, k - 1, x);
      TdLinesNoMarker(body[k - 1], x);
      FramedOnce(TdLines(body[k - 1]), x);
      CountConcat(BodyLines(body, k - 1), BodyRowLines(body[k - 1]), x);
    }
  }

  /** The preview has one `<tr>` and one `</tr>` per header row and per body row. */
  lemma RowsBalanced(header: seq<seq<string>>, n: nat, body: seq<seq<Option<string>>>)
    requires Covers(header, n)
    ensures Count(HtmlLines(header, n, body), RowOpen) == |header| + |body|
    ensures Count(HtmlLines(header, n, body), RowClose) == |header| + |body|
  {
    forall x | RowMarker(x)
      ensures Count(HtmlLines(header, n, body), x) == |header| + |body|
    {
      var h := HeaderLines(header, n, |header|);
      var b := BodyLines(body, |body|);
      forall r | 0 <= r < |header| ensures Count(HeaderRowLines(header, r, n), x) == 1 {
        HeaderRowMarkers(header, r, n, x);
      }
      HeaderLinesMarkers(header, n, |header|, x);
      BodyLinesMarkers(body, |body|, x);
      CountConcat([TableOpen], h, x);
      CountConcat([TableOpen] + h, b, x);
      CountConcat([TableOpen] + h + b, [TableClose], x);
      CountSingle(TableOpen, x);
      CountSingle(TableClose, x);
    }
  }

  /** A body row is framed by the markers and has one `<td>` per cell, in
      order, a missing value showing as empty text. */
  lemma BodyRowShape(row: seq<Option<string>>)
    ensures |BodyRowLines(row)| == |row| + 2
    ensures BodyRowLines(row)[0] == RowOpen && BodyRowLines(row)[|row| + 1] == RowClose
    ensures forall i :: 1 <= i <= |row| ==> BodyRowLines(row)[i] == TdLine(row[i - 1])
    ensures forall i :: 1 <= i <= |row| && row[i - 1] == None ==> BodyRowLines(row)[i] == "<td style=\"" + TdStyle + "\"></td>"
  {
  }
}
