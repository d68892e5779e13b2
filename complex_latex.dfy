/**
  `generate_complex_latex(header_df, body_df, caption, refLabel, position)` of
  tool/utils.py: a booktabs table whose header may have several rows. The
  header scan of `HeaderSpans` finds the horizontal runs, which become
  `\multicolumn` entries; a cell equal to the one below starts a
  `\multirow{2}`, and a cell equal to the one above is left blank. Under
  every non-blank run wider than one column, except in the last header row,
  a `\cmidrule` is queued. The number of columns is taken from the body,
  while the header rows are indexed with it.
 */
module ComplexLatex {
  import opened Text
  import opened Wrappers
  import opened Sequences
  import opened HeaderSpans

  /* This renderer writes its lines flush left, unlike `SimpleLatex`, hence
     its own constants and line helpers below. */
  const Centering := "\\centering"
  const Toprule := "\\toprule"
  const Midrule := "\\midrule"
  const Bottomrule := "\\bottomrule"
  const EndTabular := "\\end{tabular}"
  const EndTable := "\\end{table}"

  /** The placement in brackets, or nothing when no placement is given. */
  function Placement(position: string): string {
    if position != "" then "[" + position + "]" else ""
  }

  /** Brackets only around a non-empty placement (`SimpleLatex` always
      writes them). */
  function BeginTable(position: string): string {
    "\\begin{table}" + Placement(position)
  }

  function CaptionLine(caption: string): string {
    "\\caption{" + caption + "}"
  }

  function LabelLine(refLabel: string): string {
    "\\label{" + refLabel + "}"
  }

  /** The tabular opener: one centred column per body column. */
  function BeginTabular(n: nat): string {
    "\\begin{tabular}{" + Repeat('c', n) + "}"
  }

  function CaptionLines(caption: string): seq<string> {
    if caption != "" then [CaptionLine(caption)] else []
  }

  function LabelLines(refLabel: string): seq<string> {
    if refLabel != "" then [LabelLine(refLabel)] else []
  }

  /** The lines before `\toprule`. */
  function OpeningFront(caption: string, refLabel: string, position: string, n: nat): seq<string> {
    [BeginTable(position), Centering] + CaptionLines(caption) + LabelLines(refLabel) + [BeginTabular(n)]
  }

  /** The lines before the header rows. */
  function OpeningLines(caption: string, refLabel: string, position: string, n: nat): seq<string> {
    OpeningFront(caption, refLabel, position, n) + [Toprule]
  }

  function Multirow(v: string): string {
    "\\multirow{2}{*}{" + v + "}"
  }

  function Multicolumn(w: nat, text: string): string {
    "\\multicolumn{" + NatToString(w) + "}{c}{" + text + "}"
  }

  /** The text of the header cell at row `r`, column `c`: a cell that starts
      a vertical merge shows its value in a two-row `\multirow`, a cell that
      continues one (its value equals the cell above) is blank, and any other
      cell shows its value. */
  function CellText(header: seq<seq<string>>, r: nat, n: nat, c: nat): string
    requires r < |header| && Covers(header, n) && c < n
  {
    var v := header[r][c];
    if EqualBelow(header, r, c) then (if EqualAbove(header, r, c) then "" else Multirow(v))
    else if EqualAbove(header, r, c) then ""
    else v
  }

  /** The `&`-separated entry of a span: wrapped in `\multicolumn` when it is
      wider than one column. */
  function Entry(header: seq<seq<string>>, r: nat, n: nat, s: Span): string
    requires r < |header| && Covers(header, n) && s.start < n
  {
    var text := CellText(header, r, n, s.start);
    if s.width > 1 then Multicolumn(s.width, text) else text
  }

  /** A rule is queued under a span wider than one column whose value is not
      blank, unless the row is the last header row. */
  predicate RuleWanted(header: seq<seq<string>>, r: nat, n: nat, s: Span)
    requires r < |header| && Covers(header, n) && s.start < n
  {
    s.width > 1 && Strip(header[r][s.start]) != "" && r + 1 < |header|
  }

  /** The rule under a span, with 1-based first and last columns. */
  function Cmidrule(s: Span): string {
    "\\cmidrule(lr){" + NatToString(s.start + 1) + "-" + NatToString(s.start + s.width) + "}"
  }

  /** What drawing span `s` adds to the queued rules: its rule or nothing. */
  function QueuedRule(header: seq<seq<string>>, r: nat, n: nat, s: Span): seq<string>
    requires r < |header| && Covers(header, n) && s.start < n
  {
    if RuleWanted(header, r, n, s) then [Cmidrule(s)] else []
  }

  /** One entry per span, in order. */
  function Entries(header: seq<seq<string>>, r: nat, n: nat, spans: seq<Span>): (es: seq<string>)
    requires r < |header| && Covers(header, n) && Within(spans, n)
    ensures |es| == |spans|
  {
    if spans == [] then []
    else Entries(header, r, n, spans[..|spans| - 1]) + [Entry(header, r, n, spans[|spans| - 1])]
  }

  /** The spans that get a rule, in order. */
  function RuleSpans(header: seq<seq<string>>, r: nat, n: nat, spans: seq<Span>): seq<Span>
    requires r < |header| && Covers(header, n) && Within(spans, n)
  {
    if spans == [] then []
    else
      var s := spans[|spans| - 1];
      RuleSpans(header, r, n, spans[..|spans| - 1]) + (if RuleWanted(header, r, n, s) then [s] else [])
  }

  function Cmidrules(spans: seq<Span>): (rules: seq<string>)
    ensures |rules| == |spans|
  {
    if spans == [] then [] else Cmidrules(spans[..|spans| - 1]) + [Cmidrule(spans[|spans| - 1])]
  }

  /** The line of a header row, and the line of its rules when it has any. */
  function HeaderRowLines(header: seq<seq<string>>, r: nat, n: nat): seq<string>
    requires r < |header| && Covers(header, n)
  {
    var row := header[r];
    RowSpansWithin(row, n);
    var spans := RowSpans(row, 0, n);
    var rules := RuleSpans(header, r, n, spans);
    [Join(" & ", Entries(header, r, n, spans)) + " \\\\"]
    + (if rules == [] then [] else [Join(" ", Cmidrules(rules))])
  }

  /** The lines of the first `k` header rows. */
  function HeaderLines(header: seq<seq<string>>, n: nat, k: nat): seq<string>
    requires k <= |header| && Covers(header, n)
  {
    if k == 0 then [] else HeaderLines(header, n, k - 1) + HeaderRowLines(header, k - 1, n)
  }

  /** A body cell; a missing value (`None`) shows as empty text. */
  function BodyText(v: Option<string>): string {
    if v.Some? then v.value else ""
  }

  function BodyLine(row: seq<Option<string>>): string {
    Join(" & ", seq(|row|, k requires 0 <= k < |row| => BodyText(row[k]))) + " \\\\"
  }

  function BodyLines(body: seq<seq<Option<string>>>): (lines: seq<string>)
    ensures |lines| == |body|
    ensures forall i :: 0 <= i < |body| ==> lines[i] == BodyLine(body[i])
  {
    seq(|body|, i requires 0 <= i < |body| => BodyLine(body[i]))
  }

  /** The lines after the body rows. */
  function ClosingLines(): seq<string> {
    [Bottomrule, EndTabular, EndTable]
  }

  /** The lines of the rendered table, in order; the output is these lines
      joined by newlines. */
  function LatexLines(header: seq<seq<string>>, n: nat, body: seq<seq<Option<string>>>,
                      caption: string, refLabel: string, position: string): seq<string>
    requires Covers(header, n)
  {
    OpeningLines(caption, refLabel, position, n)
    + HeaderLines(header, n, |header|)
    + [Midrule]
    + BodyLines(body)
    + ClosingLines()
  }

  // ---------------------------------------------------------------------
  // The renderer as the source writes it.

  /** The lines up to `\toprule`, appended one by one. */
  method WriteOpening(caption: string, refLabel: string, position: string, nCols: nat)
    returns (latex: seq<string>)
    ensures latex == OpeningLines(caption, refLabel, position, nCols)
  {
    var posStr := if position != "" then "[" + position + "]" else "";
    latex := ["\\begin{table}" + posStr];
    latex := latex + [Centering];
    if caption != "" {
      latex := latex + ["\\caption{" + caption + "}"];
    }
    if refLabel != "" {
      latex := latex + ["\\label{" + refLabel + "}"];
    }
    latex := latex + ["\\begin{tabular}{" + Repeat('c', nCols) + "}"];
    latex := latex + [Toprule];
  }

  /** The source's choice of cell text, branch for branch. */
  method ChooseCellText(header: seq<seq<string>>, r: nat, nCols: nat, c: nat) returns (cellText: string)
    requires r < |header| && Covers(header, nCols) && c < nCols
    ensures cellText == CellText(header, r, nCols, c)
  {
    var currentVal := header[r][c];
    cellText := currentVal;
    if r + 1 < |header| && header[r + 1][c] == currentVal {
      if r > 0 && header[r - 1][c] == currentVal {
        cellText := "";
      } else {
        cellText := "\\multirow{2}{*}{" + currentVal + "}";
      }
    } else if r > 0 && header[r - 1][c] == currentVal {
      cellText := "";
    }
  }

  /** One stop of the cursor at column `c`: the run there is measured, its
      entry appended, and its rule queued when one is wanted. */
  method DrawEntry(rowLatex: seq<string>, cmidrules: seq<string>, header: seq<seq<string>>,
                   r: nat, nCols: nat, c: nat)
    returns (rowLatex': seq<string>, cmidrules': seq<string>, colspan: nat)
    requires r < |header| && Covers(header, nCols) && c < nCols
    ensures colspan == RunWidth(header[r], c, nCols)
    ensures rowLatex' == rowLatex + [Entry(header, r, nCols, Span(c, colspan))]
    ensures cmidrules' == cmidrules + QueuedRule(header, r, nCols, Span(c, colspan))
  {
    var currentVal := header[r][c];
    colspan := ScanRun(header[r], c, nCols);
    var cellText := ChooseCellText(header, r, nCols, c);
    cmidrules' := cmidrules;
    if colspan > 1 {
      rowLatex' := rowLatex + ["\\multicolumn{" + NatToString(colspan) + "}{c}{" + cellText + "}"];
      if Strip(currentVal) != "" && r + 1 < |header| {
        cmidrules' := cmidrules + ["\\cmidrule(lr){" + NatToString(c + 1) + "-" + NatToString(c + colspan) + "}"];
      } else {
        AppendEmpty(cmidrules);
      }
    } else {
      rowLatex' := rowLatex + [cellText];
      AppendEmpty(cmidrules);
    }
  }

  /** The cursor loop over one header row: the entries of its spans and the
      rules queued under them. */
  method ScanHeaderRow(header: seq<seq<string>>, r: nat, nCols: nat)
    returns (rowLatex: seq<string>, cmidrules: seq<string>)
    requires r < |header| && Covers(header, nCols)
    ensures Within(RowSpans(header[r], 0, nCols), nCols)
    ensures rowLatex == Entries(header, r, nCols, RowSpans(header[r], 0, nCols))
    ensures cmidrules == Cmidrules(RuleSpans(header, r, nCols, RowSpans(header[r], 0, nCols)))
  {
    rowLatex := [];
    cmidrules := [];
    ghost var done: seq<Span> := [];
    var c := 0;
    while c < nCols
      invariant ScanState(header, r, nCols, c, done, rowLatex, cmidrules)
      decreases nCols - c
    {
      rowLatex, cmidrules, done, c := ScanStep(header, r, nCols, c, done, rowLatex, cmidrules);
    }
    AppendEmpty(done);
  }

  /** The state of the cursor loop at column `c`: `done` holds the spans
      visited so far, and the entries and the rules are theirs. */
  ghost predicate ScanState(header: seq<seq<string>>, r: nat, n: nat, c: nat, done: seq<Span>,
                            rowLatex: seq<string>, cmidrules: seq<string>)
    requires r < |header| && Covers(header, n)
  {
    && c <= n && Within(done, n)
    && RowSpans(header[r], 0, n) == done + RowSpans(header[r], c, n)
    && rowLatex == Entries(header, r, n, done)
    && cmidrules == Cmidrules(RuleSpans(header, r, n, done))
  }

  /** One turn of the cursor loop. */
  method ScanStep(header: seq<seq<string>>, r: nat, nCols: nat, c: nat, ghost done: seq<Span>,
                  rowLatex: seq<string>, cmidrules: seq<string>)
    returns (rowLatex': seq<string>, cmidrules': seq<string>, ghost done': seq<Span>, c': nat)
    requires r < |header| && Covers(header, nCols) && c < nCols
    requires ScanState(header, r, nCols, c, done, rowLatex, cmidrules)
    ensures ScanState(header, r, nCols, c', done', rowLatex', cmidrules')
    ensures c < c'
  {
    var colspan;
    rowLatex', cmidrules', colspan := DrawEntry(rowLatex, cmidrules, header, r, nCols, c);
    done' := done + [Span(c, colspan)];
    c' := c + colspan;
    EntryStep(header, r, nCols, done, Span(c, colspan), done', rowLatex, rowLatex', cmidrules, cmidrules');
    RowSpansNext(header[r], c, nCols, done, RowSpans(header[r], 0, nCols), c', done');
  }

  /** One header row: the row line and, when rules were queued, the rule line. */
  method WriteHeaderRow(latex: seq<string>, header: seq<seq<string>>, r: nat, nCols: nat)
    returns (latex': seq<string>)
    requires r < |header| && Covers(header, nCols)
    ensures latex' == latex + HeaderRowLines(header, r, nCols)
  {
    var rowLatex, cmidrules := ScanHeaderRow(header, r, nCols);
    var rowLine := Join(" & ", rowLatex) + " \\\\";
    latex' := latex + [rowLine];
    if cmidrules != [] {
      latex' := latex' + [Join(" ", cmidrules)];
    } else {
      AppendEmpty(latex');
    }
    RowLinesAppend(latex, header, r, nCols, rowLine, cmidrules);
  }

  /** All header rows, after the lines so far. */
  method WriteHeaderRows(top: seq<string>, header: seq<seq<string>>, nCols: nat) returns (latex: seq<string>)
    requires Covers(header, nCols)
    ensures latex == top + HeaderLines(header, nCols, |header|)
  {
    latex := top;
    for r := 0 to |header|
      invariant latex == top + HeaderLines(header, nCols, r)
    {
      Assoc3(top, HeaderLines(header, nCols, r), HeaderRowLines(header, r, nCols));
      latex := WriteHeaderRow(latex, header, r, nCols);
    }
  }

  /** The body rows, after the lines so far. */
  method WriteBodyRows(top: seq<string>, body: seq<seq<Option<string>>>) returns (latex: seq<string>)
    ensures latex == top + BodyLines(body)
  {
    latex := top;
    ghost var lines := BodyLines(body);
    for i := 0 to |body|
      invariant latex == top + lines[..i]
    {
      var row := body[i];
      var rowStr := Join(" & ", seq(|row|, k requires 0 <= k < |row| => BodyText(row[k])));
      latex := latex + [rowStr + " \\\\"];
      ExtendPrefix(top, lines, i);
    }
    assert lines[..|lines|] == lines;
  }

  /** The renderer: the lines in order, joined with newlines. */
  method GenerateComplexLatex(header: seq<seq<string>>, nCols: nat, body: seq<seq<Option<string>>>,
                              caption: string, refLabel: string, position: string)
    returns (out: string)
    requires Covers(header, nCols)
    ensures out == Join("\n", LatexLines(header, nCols, body, caption, refLabel, position))
  {
    var latex := WriteOpening(caption, refLabel, position, nCols);
    latex := WriteHeaderRows(latex, header, nCols);
    latex := latex + [Midrule];
    latex := WriteBodyRows(latex, body);
    latex := latex + [Bottomrule, EndTabular, EndTable];
    out := Join("\n", latex);
  }

  // ---------------------------------------------------------------------
  // Steps of the proofs of the methods.

  /** Drawing one more span adds its entry, and its rule when one is wanted. */
  lemma EntryStep(header: seq<seq<string>>, r: nat, n: nat, done: seq<Span>, s: Span, done': seq<Span>,
                  rowLatex: seq<string>, rowLatex': seq<string>, cmidrules: seq<string>, cmidrules': seq<string>)
    requires r < |header| && Covers(header, n) && Within(done, n) && s.start < n && done' == done + [s]
    requires rowLatex == Entries(header, r, n, done) && rowLatex' == rowLatex + [Entry(header, r, n, s)]
    requires cmidrules == Cmidrules(RuleSpans(header, r, n, done))
    requires cmidrules' == cmidrules + QueuedRule(header, r, n, s)
    ensures Within(done', n)
    ensures rowLatex' == Entries(header, r, n, done')
    ensures cmidrules' == Cmidrules(RuleSpans(header, r, n, done'))
  {
    DropLast(done, s);
    var rules := RuleSpans(header, r, n, done);
    if RuleWanted(header, r, n, s) {
      DropLast(rules, s);
    } else {
      AppendEmpty(rules);
      AppendEmpty(Cmidrules(rules));
    }
  }

  lemma RowLinesAppend(latex: seq<string>, header: seq<seq<string>>, r: nat, n: nat,
                       rowLine: string, cmidrules: seq<string>)
    requires r < |header| && Covers(header, n)
    requires Within(RowSpans(header[r], 0, n), n)
    requires rowLine == Join(" & ", Entries(header, r, n, RowSpans(header[r], 0, n))) + " \\\\"
    requires cmidrules == Cmidrules(RuleSpans(header, r, n, RowSpans(header[r], 0, n)))
    ensures latex + [rowLine] + (if cmidrules == [] then [] else [Join(" ", cmidrules)])
         == latex + HeaderRowLines(header, r, n)
  {
    Assoc3(latex, [rowLine], if cmidrules == [] then [] else [Join(" ", cmidrules)]);
  }

  // ---------------------------------------------------------------------
  // What the rendering promises.

  /** The cell text: `\multirow{2}` exactly when the cell below is equal and
      the cell above is not, blank whenever the cell above is equal, and the
      value itself when neither neighbour is equal. */
  lemma CellTextCases(header: seq<seq<string>>, r: nat, n: nat, c: nat)
    requires r < |header| && Covers(header, n) && c < n
    ensures CellText(header, r, n, c) == Multirow(header[r][c])
            <==> EqualBelow(header, r, c) && !EqualAbove(header, r, c)
    ensures EqualAbove(header, r, c) ==> CellText(header, r, n, c) == ""
    ensures !EqualBelow(header, r, c) && !EqualAbove(header, r, c) ==> CellText(header, r, n, c) == header[r][c]
  {
    var v := header[r][c];
    assert |Multirow(v)| == |v| + 17;
  }

  lemma {:induction false} EntriesAt(header: seq<seq<string>>, r: nat, n: nat, spans: seq<Span>, i: nat)
    requires r < |header| && Covers(header, n) && Within(spans, n) && i < |spans|
    ensures Entries(header, r, n, spans)[i] == Entry(header, r, n, spans[i])
    decreases |spans|
  {
    var front := spans[..|spans| - 1];
    assert Within(front, n) by {
      forall k | 0 <= k < |front| ensures front[k].start < n {
        assert front[k] == spans[k];
      }
    }
    if i < |front| {
      EntriesAt(header, r, n, front, i);
      assert front[i] == spans[i];
    }
  }

  /** Every span of a header row yields exactly one `&`-separated entry, in
      order, so no column is skipped: the spans tile the columns, and an
      entry is its cell text, wrapped in `\multicolumn` with the span's width
      when the span is wider than one column. */
  lemma RowEntries(header: seq<seq<string>>, r: nat, n: nat)
    requires r < |header| && Covers(header, n)
    ensures Tiles(RowSpans(header[r], 0, n), 0, n) && Within(RowSpans(header[r], 0, n), n)
    ensures var spans := RowSpans(header[r], 0, n);
      var es := Entries(header, r, n, spans);
      && |es| == |spans|
      && forall i :: 0 <= i < |spans| ==>
           es[i] == if spans[i].width > 1 then Multicolumn(spans[i].width, CellText(header, r, n, spans[i].start))
                    else CellText(header, r, n, spans[i].start)
  {
    var spans := RowSpans(header[r], 0, n);
    RowSpansTile(header[r], 0, n);
    RowSpansWithin(header[r], n);
    forall i | 0 <= i < |spans|
      ensures Entries(header, r, n, spans)[i] == Entry(header, r, n, spans[i])
    {
      EntriesAt(header, r, n, spans, i);
    }
  }

  /** A span gets a rule exactly when it is one of the spans and a rule is
      wanted under it. */
  lemma {:induction false} RuleSpansMember(header: seq<seq<string>>, r: nat, n: nat, spans: seq<Span>, s: Span)
    requires r < |header| && Covers(header, n) && Within(spans, n)
    ensures s in RuleSpans(header, r, n, spans) <==> s in spans && s.start < n && RuleWanted(header, r, n, s)
    decreases |spans|
  {
    if spans != [] {
      var front := spans[..|spans| - 1];
      var last := spans[|spans| - 1];
      assert Within(front, n) by {
        forall k | 0 <= k < |front| ensures front[k].start < n {
          assert front[k] == spans[k];
        }
      }
      RuleSpansMember(header, r, n, front, s);
      assert spans == front + [last];
    }
  }

  /** Picking the spans that get a rule keeps them in increasing order. */
  lemma {:induction false} RuleSpansIncreasing(header: seq<seq<string>>, r: nat, n: nat, spans: seq<Span>)
    requires r < |header| && Covers(header, n) && Within(spans, n) && Increasing(spans)
    ensures Increasing(RuleSpans(header, r, n, spans))
    decreases |spans|
  {
    if spans != [] {
      var front := spans[..|spans| - 1];
      var last := spans[|spans| - 1];
      assert Within(front, n) && Increasing(front) by {
        forall k | 0 <= k < |front| ensures front[k] == spans[k] {
        }
      }
      RuleSpansIncreasing(header, r, n, front);
      var rules := RuleSpans(header, r, n, front);
      if RuleWanted(header, r, n, last) {
        forall i | 0 <= i < |rules| ensures rules[i].start + rules[i].width <= last.start {
          RuleSpansMember(header, r, n, front, rules[i]);
          var j :| 0 <= j < |front| && front[j] == rules[i];
          assert spans[j] == front[j];
        }
      } else {
        AppendEmpty(rules);
      }
    }
  }

  lemma {:induction false} CmidrulesAt(spans: seq<Span>, i: nat)
    requires i < |spans|
    ensures Cmidrules(spans)[i] == Cmidrule(spans[i])
    decreases |spans|
  {
    var front := spans[..|spans| - 1];
    assert Cmidrules(spans) == Cmidrules(front) + [Cmidrule(spans[|spans| - 1])];
    if i < |front| {
      CmidrulesAt(front, i);
      assert front[i] == spans[i];
    }
  }

  /** The rules queued under a header row are exactly its spans that are
      wider than one column and not blank, and none in the last header row;
      they run left to right without overlapping, each covers at least two
      of the columns 1 .. n (numbered from 1 in the rule), the rule line
      holds one `\cmidrule` per rule in that order, and it is written only
      when there is at least one rule. */
  lemma RowRules(header: seq<seq<string>>, r: nat, n: nat)
    requires r < |header| && Covers(header, n)
    ensures Within(RowSpans(header[r], 0, n), n)
    ensures var spans := RowSpans(header[r], 0, n);
      var rules := RuleSpans(header, r, n, spans);
      && (forall s :: s in rules <==> s in spans && s.start < n && RuleWanted(header, r, n, s))
      && Increasing(rules)
      && (forall i :: 0 <= i < |rules| ==> 1 < rules[i].width && rules[i].start + rules[i].width <= n)
      && (forall i :: 0 <= i < |rules| ==> Cmidrules(rules)[i] == Cmidrule(rules[i]))
      && (r + 1 == |header| ==> rules == [])
      && |HeaderRowLines(header, r, n)| == (if rules == [] then 1 else 2)
  {
    var row := header[r];
    var spans := RowSpans(row, 0, n);
    RowSpansWithin(row, n);
    var rules := RuleSpans(header, r, n, spans);
    forall s ensures s in rules <==> s in spans && s.start < n && RuleWanted(header, r, n, s) {
      RuleSpansMember(header, r, n, spans, s);
    }
    RowSpansTile(row, 0, n);
    TilesOrdered(spans, 0, n);
    RuleSpansIncreasing(header, r, n, spans);
    RowSpansMaximal(row, 0, n);
    forall i | 0 <= i < |rules| ensures 1 < rules[i].width && rules[i].start + rules[i].width <= n {
      assert rules[i] in rules;
      var j :| 0 <= j < |spans| && spans[j] == rules[i];
      assert MaximalRun(row, n, spans[j]);
    }
    forall i | 0 <= i < |rules| ensures Cmidrules(rules)[i] == Cmidrule(rules[i]) {
      CmidrulesAt(rules, i);
    }
    if rules != [] {
      assert rules[0] in rules;
      assert r + 1 < |header|;
    }
    assert HeaderRowLines(header, r, n)
        == [Join(" & ", Entries(header, r, n, spans)) + " \\\\"]
           + (if rules == [] then [] else [Join(" ", Cmidrules(rules))]);
  }

  /** The opener of the float ends with a closing bracket exactly when a
      placement is given. */
  lemma PlacementBrackets(position: string)
    ensures var b := BeginTable(position);
      |b| > 0 && (b[|b| - 1] == ']' <==> position != "")
  {
    var b := BeginTable(position);
    if position == "" {
      assert b == "\\begin{table}";
    } else {
      assert b == "\\begin{table}" + "[" + position + "]";
    }
  }

  /** 1 when the caption is written, otherwise 0. */
  function CaptionCount(caption: string): nat {
    if caption != "" then 1 else 0
  }

  /** 1 when the label is written, otherwise 0. */
  function LabelCount(refLabel: string): nat {
    if refLabel != "" then 1 else 0
  }

  /** The opening lines: the float opener, `\centering`, the caption and the
      label when they are non-empty, the tabular opener and `\toprule`. */
  predicate OpeningAt(lines: seq<string>, n: nat, caption: string, refLabel: string, position: string) {
    var cap := CaptionCount(caption);
    var lab := LabelCount(refLabel);
    && |lines| >= 4 + cap + lab
    && lines[0] == BeginTable(position)
    && lines[1] == Centering
    && (cap == 1 ==> lines[2] == CaptionLine(caption))
    && (lab == 1 ==> lines[2 + cap] == LabelLine(refLabel))
    && lines[2 + cap + lab] == BeginTabular(n)
    && lines[3 + cap + lab] == Toprule
  }

  /** The header lines `hs` from line `o` on, then `\midrule`. */
  predicate HeaderAt(lines: seq<string>, hs: seq<string>, o: nat) {
    && o + |hs| < |lines|
    && (forall i :: 0 <= i < |hs| ==> lines[o + i] == hs[i])
    && lines[o + |hs|] == Midrule
  }

  /** One line per body row from line `o` on. */
  predicate BodyAt(lines: seq<string>, body: seq<seq<Option<string>>>, o: nat) {
    && o + |body| <= |lines|
    && forall i :: 0 <= i < |body| ==> lines[o + i] == BodyLine(body[i])
  }

  /** `\bottomrule` and the two closers as the last three lines, from line `o`. */
  predicate ClosingAt(lines: seq<string>, o: nat) {
    && |lines| == o + 3
    && lines[o] == Bottomrule
    && lines[o + 1] == EndTabular
    && lines[o + 2] == EndTable
  }

  /** `lines` has the layout of the rendered table with header lines `hs`:
      the opening lines, the header lines, `\midrule`, one line per body row,
      `\bottomrule` and the two closers, with nothing in between. */
  predicate LaidOut(lines: seq<string>, hs: seq<string>, n: nat, body: seq<seq<Option<string>>>,
                    caption: string, refLabel: string, position: string)
  {
    var o := 4 + CaptionCount(caption) + LabelCount(refLabel);
    && OpeningAt(lines, n, caption, refLabel, position)
    && HeaderAt(lines, hs, o)
    && BodyAt(lines, body, o + |hs| + 1)
    && ClosingAt(lines, o + |hs| + 1 + |body|)
  }

  /** The rendered lines have that layout, with the header lines of all
      header rows. */
  lemma Layout(header: seq<seq<string>>, n: nat, body: seq<seq<Option<string>>>,
               caption: string, refLabel: string, position: string)
    requires Covers(header, n)
    ensures LaidOut(LatexLines(header, n, body, caption, refLabel, position), HeaderLines(header, n, |header|),
                    n, body, caption, refLabel, position)
  {
    var lines := LatexLines(header, n, body, caption, refLabel, position);
    var opening := OpeningLines(caption, refLabel, position, n);
    var hs := HeaderLines(header, n, |header|);
    var o := 4 + CaptionCount(caption) + LabelCount(refLabel);
    LayoutOpening(lines, opening, hs, n, body, caption, refLabel, position);
    LayoutHeader(lines, opening, hs, body, o);
    LayoutBody(lines, opening, hs, body, o + |hs| + 1);
    LayoutClosing(lines, opening, hs, body, o + |hs| + 1 + |body|);
  }

  lemma LayoutOpening(lines: seq<string>, opening: seq<string>, hs: seq<string>, n: nat, body: seq<seq<Option<string>>>,
                      caption: string, refLabel: string, position: string)
    requires opening == OpeningLines(caption, refLabel, position, n)
    requires lines == opening + hs + [Midrule] + BodyLines(body) + ClosingLines()
    ensures |opening| == 4 + CaptionCount(caption) + LabelCount(refLabel)
    ensures OpeningAt(lines, n, caption, refLabel, position)
  {
    var cap := CaptionCount(caption);
    var lab := LabelCount(refLabel);
    var tail := [Midrule] + BodyLines(body) + ClosingLines();
    Assoc4(opening + hs, [Midrule], BodyLines(body), ClosingLines());
    assert lines == opening + hs + tail;
    assert opening[0] == BeginTable(position) && opening[1] == Centering;
    assert cap == 1 ==> opening[2] == CaptionLine(caption);
    assert lab == 1 ==> opening[2 + cap] == LabelLine(refLabel);
    assert opening[2 + cap + lab] == BeginTabular(n) && opening[3 + cap + lab] == Toprule;
    InFirst(opening, hs, tail, 0);
    InFirst(opening, hs, tail, 1);
    if cap == 1 {
      InFirst(opening, hs, tail, 2);
    }
    if lab == 1 {
      InFirst(opening, hs, tail, 2 + cap);
    }
    InFirst(opening, hs, tail, 2 + cap + lab);
    InFirst(opening, hs, tail, 3 + cap + lab);
  }

  lemma LayoutHeader(lines: seq<string>, opening: seq<string>, hs: seq<string>, body: seq<seq<Option<string>>>, o: nat)
    requires lines == opening + hs + [Midrule] + BodyLines(body) + ClosingLines() && o == |opening|
    ensures HeaderAt(lines, hs, o)
  {
    var tail := [Midrule] + BodyLines(body) + ClosingLines();
    Assoc4(opening + hs, [Midrule], BodyLines(body), ClosingLines());
    InMiddle(lines, opening, hs, tail, o);
    InThird(opening, hs, tail, 0);
  }

  lemma LayoutBody(lines: seq<string>, opening: seq<string>, hs: seq<string>, body: seq<seq<Option<string>>>, o: nat)
    requires lines == opening + hs + [Midrule] + BodyLines(body) + ClosingLines() && o == |opening| + |hs| + 1
    ensures BodyAt(lines, body, o)
  {
    InMiddle(lines, opening + hs + [Midrule], BodyLines(body), ClosingLines(), o);
  }

  lemma LayoutClosing(lines: seq<string>, opening: seq<string>, hs: seq<string>, body: seq<seq<Option<string>>>, o: nat)
    requires lines == opening + hs + [Midrule] + BodyLines(body) + ClosingLines()
    requires o == |opening| + |hs| + 1 + |body|
    ensures ClosingAt(lines, o)
  {
    var front := opening + hs + [Midrule];
    InThird(front, BodyLines(body), ClosingLines(), 0);
    InThird(front, BodyLines(body), ClosingLines(), 1);
    InThird(front, BodyLines(body), ClosingLines(), 2);
  }

  /** The three booktabs rules. */
  predicate FrameRule(x: string) {
    x == Toprule || x == Midrule || x == Bottomrule
  }

  /** A line whose last character is not `e` is none of the rules. */
  lemma NotFrameRule(l: string)
    requires |l| > 0 && l[|l| - 1] != 'e'
    ensures !FrameRule(l)
  {
    assert Toprule[7] == 'e' && Midrule[7] == 'e' && Bottomrule[10] == 'e';
  }

  /** A line ending in a row terminator is none of the rules. */
  lemma RowEndNotFrameRule(cells: string)
    ensures !FrameRule(cells + " \\\\")
  {
    LastOfAppend(cells, " \\\\");
    NotFrameRule(cells + " \\\\");
  }

  /** Neither line of a header row is a rule. */
  lemma HeaderRowNoFrame(header: seq<seq<string>>, r: nat, n: nat, x: string)
    requires r < |header| && Covers(header, n) && FrameRule(x)
    ensures Count(HeaderRowLines(header, r, n), x) == 0
  {
    var row := header[r];
    RowSpansWithin(row, n);
    var spans := RowSpans(row, 0, n);
    var rules := RuleSpans(header, r, n, spans);
    var rowLine := Join(" & ", Entries(header, r, n, spans)) + " \\\\";
    RowEndNotFrameRule(Join(" & ", Entries(header, r, n, spans)));
    if rules == [] {
      assert HeaderRowLines(header, r, n) == [rowLine] + [];
      CountAbsent([rowLine], x);
    } else {
      var cms := Cmidrules(rules);
      CmidrulesAt(rules, |rules| - 1);
      var lastRule := Cmidrule(rules[|rules| - 1]);
      LastOfAppend("\\cmidrule(lr){" + NatToString(rules[|rules| - 1].start + 1) + "-"
                   + NatToString(rules[|rules| - 1].start + rules[|rules| - 1].width), "}");
      JoinLast(" ", cms);
      NotFrameRule(Join(" ", cms));
      assert HeaderRowLines(header, r, n) == [rowLine] + [Join(" ", cms)];
      CountAbsent([rowLine] + [Join(" ", cms)], x);
    }
  }

  lemma {:induction false} HeaderLinesNoFrame(header: seq<seq<string>>, n: nat, k: nat, x: string)
    requires k <= |header| && Covers(header, n) && FrameRule(x)
    ensures Count(HeaderLines(header, n, k), x) == 0
  {
    if k > 0 {
      HeaderLinesNoFrame(header, n, k - 1, x);
      HeaderRowNoFrame(header, k - 1, n, x);
      CountConcat(HeaderLines(header, n, k - 1), HeaderRowLines(header, k - 1, n), x);
    }
  }

  lemma BodyNoFrame(body: seq<seq<Option<string>>>, x: string)
    requires FrameRule(x)
    ensures Count(BodyLines(body), x) == 0
  {
    var lines := BodyLines(body);
    forall i | 0 <= i < |lines| ensures lines[i] != x {
      var row := body[i];
      RowEndNotFrameRule(Join(" & ", seq(|row|, k requires 0 <= k < |row| => BodyText(row[k]))));
    }
    CountAbsent(lines, x);
  }

  /** No line before `\toprule` ends in `e`, so none is a rule. */
  lemma OpeningFrontLine(caption: string, refLabel: string, position: string, n: nat, i: nat)
    requires i < |OpeningFront(caption, refLabel, position, n)|
    ensures !FrameRule(OpeningFront(caption, refLabel, position, n)[i])
  {
    var front := OpeningFront(caption, refLabel, position, n);
    var l := front[i];
    assert l[|l| - 1] != 'e' by {
      if i == 0 {
        if position == "" {
          assert l == "\\begin{table}";
        } else {
          LastOfAppend("\\begin{table}[" + position, "]");
          assert l == "\\begin{table}[" + position + "]";
        }
      } else if i == 1 {
        assert l == Centering;
      } else if i == |front| - 1 {
        LastOfAppend("\\begin{tabular}{" + Repeat('c', n), "}");
      } else if caption != "" && i == 2 {
        LastOfAppend("\\caption{" + caption, "}");
      } else {
        LastOfAppend("\\label{" + refLabel, "}");
      }
    }
    NotFrameRule(l);
  }

  /** `\toprule` is the only rule among the opening lines, and it is there once. */
  lemma OpeningFrames(caption: string, refLabel: string, position: string, n: nat, x: string)
    requires FrameRule(x)
    ensures Count(OpeningLines(caption, refLabel, position, n), x) == if x == Toprule then 1 else 0
  {
    var front := OpeningFront(caption, refLabel, position, n);
    forall i | 0 <= i < |front| ensures front[i] != x {
      OpeningFrontLine(caption, refLabel, position, n, i);
    }
    CountAbsent(front, x);
    CountConcat(front, [Toprule], x);
    CountSingle(Toprule, x);
  }

  /** `\bottomrule` is the only rule among the closing lines. */
  lemma ClosingFrames(x: string)
    requires FrameRule(x)
    ensures Count(ClosingLines(), x) == if x == Bottomrule then 1 else 0
  {
    var closers := [EndTabular, EndTable];
    NotFrameRule(EndTabular);
    NotFrameRule(EndTable);
    CountAbsent(closers, x);
    CountSingle(Bottomrule, x);
    CountConcat([Bottomrule], closers, x);
    assert [Bottomrule] + closers == [Bottomrule, EndTabular, EndTable];
  }

  /** Each of `\toprule`, `\midrule` and `\bottomrule` is written exactly once. */
  lemma FrameRulesOnce(header: seq<seq<string>>, n: nat, body: seq<seq<Option<string>>>,
                       caption: string, refLabel: string, position: string, x: string)
    requires Covers(header, n) && FrameRule(x)
    ensures Count(LatexLines(header, n, body, caption, refLabel, position), x) == 1
  {
    var o := OpeningLines(caption, refLabel, position, n);
    var hs := HeaderLines(header, n, |header|);
    var bl := BodyLines(body);
    var cl := ClosingLines();
    assert LatexLines(header, n, body, caption, refLabel, position) == o + hs + [Midrule] + bl + cl;
    OpeningFrames(caption, refLabel, position, n, x);
    HeaderLinesNoFrame(header, n, |header|, x);
    BodyNoFrame(body, x);
    ClosingFrames(x);
    FramedBySections(o, hs, bl, cl, x);
  }

  /** A rule counted once in the three framing sections and never in the
      header or body lines is counted once in all of them. */
  lemma FramedBySections(o: seq<string>, hs: seq<string>, bl: seq<string>, cl: seq<string>, x: string)
    requires FrameRule(x)
    requires Count(o, x) == (if x == Toprule then 1 else 0)
    requires Count(hs, x) == 0 && Count(bl, x) == 0
    requires Count(cl, x) == (if x == Bottomrule then 1 else 0)
    ensures Count(o + hs + [Midrule] + bl + cl, x) == 1
  {
    CountFive(o, hs, [Midrule], bl, cl, x);
    CountSingle(Midrule, x);
    assert Toprule[1] == 't' && Midrule[1] == 'm' && Bottomrule[1] == 'b';
  }
}
