/**
  The header scan that `generate_preview_html` and `generate_complex_latex`
  of tool/utils.py share: a cursor walks a header row from left to right; at
  each stop the horizontal span is the run of cells equal to the cell under
  the cursor, and the cursor then jumps past the run. Whether a cell merges
  vertically is decided by looking only at the header row directly above and
  the one directly below, at the span's start column.
 */
module HeaderSpans {
  import opened Sequences

  /** A horizontal span of a header row: its start column and its width. */
  datatype Span = Span(start: nat, width: nat)

  /** Every header row has at least `n` cells, so the scan over columns
      `0 .. n-1` can read each row and its neighbours. */
  predicate Covers<T(==)>(header: seq<seq<T>>, n: nat) {
    forall r :: 0 <= r < |header| ==> n <= |header[r]|
  }

  /** The width of the run that starts at column `c`: the cells from `c` on
      that equal the cell at `c`, stopping at column `n` or at the first
      different cell. */
  function RunWidth<T(==)>(row: seq<T>, c: nat, n: nat): (w: nat)
    requires c < n <= |row|
    ensures 1 <= w <= n - c
    ensures forall k :: c <= k < c + w ==> row[k] == row[c]
    ensures c + w == n || row[c + w] != row[c]
    decreases n - c
  {
    if c + 1 < n && row[c + 1] == row[c] then 1 + RunWidth(row, c + 1, n) else 1
  }

  /** A maximal run is unique: any width with the three properties above is
      `RunWidth`. */
  lemma RunWidthUnique<T>(row: seq<T>, c: nat, n: nat, w: nat)
    requires c < n <= |row|
    requires 1 <= w <= n - c
    requires forall k :: c <= k < c + w ==> row[k] == row[c]
    requires c + w == n || row[c + w] != row[c]
    ensures w == RunWidth(row, c, n)
  {
  }

  /** The inner loop of both renderers: grow `colspan` while the next cell is
      still inside the first `n` columns and equals the cell at `c`. */
  method ScanRun<T(==)>(row: seq<T>, c: nat, n: nat) returns (colspan: nat)
    requires c < n <= |row|
    ensures 1 <= colspan <= n - c
    ensures forall k :: c <= k < c + colspan ==> row[k] == row[c]
    ensures c + colspan == n || row[c + colspan] != row[c]
    ensures colspan == RunWidth(row, c, n)
  {
    var currentVal := row[c];
    colspan := 1;
    while c + colspan < n && row[c + colspan] == currentVal
      invariant 1 <= colspan <= n - c
      invariant forall k :: c <= k < c + colspan ==> row[k] == currentVal
    {
      colspan := colspan + 1;
    }
    RunWidthUnique(row, c, n, colspan);
  }

  /** The spans the cursor visits when it starts at column `c`. */
  function RowSpans<T(==)>(row: seq<T>, c: nat, n: nat): seq<Span>
    requires c <= n <= |row|
    decreases n - c
  {
    if c == n then []
    else
      var w := RunWidth(row, c, n);
      [Span(c, w)] + RowSpans(row, c + w, n)
  }

  /** One step of the cursor: the run at `c`, then the spans after it. */
  lemma RowSpansUnfold<T>(row: seq<T>, c: nat, n: nat)
    requires c < n <= |row|
    ensures RowSpans(row, c, n) == [Span(c, RunWidth(row, c, n))] + RowSpans(row, c + RunWidth(row, c, n), n)
  {
  }

  /** `spans` covers the columns `c .. n-1` exactly: each span is non-empty
      and begins where the previous one ends, the first at `c`, the last
      ending at `n`. */
  predicate Tiles(spans: seq<Span>, c: nat, n: nat) {
    && c <= n
    && (spans == [] <==> c == n)
    && (spans != [] ==> spans[0].start == c && spans[|spans| - 1].start + spans[|spans| - 1].width == n)
    && (forall i :: 0 <= i < |spans| ==> spans[i].width >= 1)
    && (forall i :: 0 <= i < |spans| - 1 ==> spans[i].start + spans[i].width == spans[i + 1].start)
  }

  /** One more stop of the cursor: the spans seen so far grow by the run at `c`. */
  lemma RowSpansAdvance<T>(row: seq<T>, c: nat, n: nat, done: seq<Span>, whole: seq<Span>)
    requires c < n <= |row|
    requires whole == done + RowSpans(row, c, n)
    ensures whole == (done + [Span(c, RunWidth(row, c, n))]) + RowSpans(row, c + RunWidth(row, c, n), n)
  {
    var w := RunWidth(row, c, n);
    RowSpansUnfold(row, c, n);
    Assoc3(done, [Span(c, w)], RowSpans(row, c + w, n));
  }

  /** The same step, stated for a cursor already moved past the run. */
  lemma RowSpansNext<T>(row: seq<T>, c: nat, n: nat, done: seq<Span>, whole: seq<Span>,
                        c': nat, done': seq<Span>)
    requires c < n <= |row|
    requires whole == done + RowSpans(row, c, n)
    requires c' == c + RunWidth(row, c, n) && done' == done + [Span(c, RunWidth(row, c, n))]
    ensures c' <= n && whole == done' + RowSpans(row, c', n)
  {
    var w := RunWidth(row, c, n);
    var rest := RowSpans(row, c', n);
    assert RowSpans(row, c, n) == [Span(c, w)] + rest;
    Assoc3(done, [Span(c, w)], rest);
  }

  /** In a tiling every span ends at or before the start of any later span. */
  lemma {:induction false} TilesOrderedAt(spans: seq<Span>, c: nat, n: nat, i: nat, j: nat)
    requires Tiles(spans, c, n) && i < j < |spans|
    ensures spans[i].start + spans[i].width <= spans[j].start
    decreases j - i
  {
    if j > i + 1 {
      TilesOrderedAt(spans, c, n, i, j - 1);
      assert spans[j - 1].start + spans[j - 1].width == spans[j].start;
    }
  }

  /** Each span ends at or before the start of every later span, so the
      spans are disjoint and in increasing order. */
  predicate Increasing(spans: seq<Span>) {
    forall i, j :: 0 <= i < j < |spans| ==> spans[i].start + spans[i].width <= spans[j].start
  }

  lemma TilesOrdered(spans: seq<Span>, c: nat, n: nat)
    requires Tiles(spans, c, n)
    ensures Increasing(spans)
  {
    forall i, j | 0 <= i < j < |spans|
      ensures spans[i].start + spans[i].width <= spans[j].start
    {
      TilesOrderedAt(spans, c, n, i, j);
    }
  }

  function TotalWidth(spans: seq<Span>): nat {
    if spans == [] then 0 else spans[0].width + TotalWidth(spans[1..])
  }

  lemma TilesCons(s: Span, rest: seq<Span>, c: nat, n: nat)
    requires s.start == c && s.width >= 1 && Tiles(rest, c + s.width, n)
    ensures Tiles([s] + rest, c, n)
  {
    var spans := [s] + rest;
    forall i | 0 <= i < |spans| - 1
      ensures spans[i].start + spans[i].width == spans[i + 1].start
    {
      if i > 0 { assert spans[i] == rest[i - 1] && spans[i + 1] == rest[i]; }
    }
  }

  /** The spans of a row tile it. */
  lemma {:induction false} RowSpansTile<T>(row: seq<T>, c: nat, n: nat)
    requires c <= n <= |row|
    ensures Tiles(RowSpans(row, c, n), c, n)
    decreases n - c
  {
    if c < n {
      var w := RunWidth(row, c, n);
      var rest := RowSpans(row, c + w, n);
      RowSpansUnfold(row, c, n);
      assert Tiles(rest, c + w, n) by { RowSpansTile(row, c + w, n); }
      TilesCons(Span(c, w), rest, c, n);
    }
  }

  /** The widths of a row's spans sum to the number of columns scanned. */
  lemma {:induction false} RowSpansWidth<T>(row: seq<T>, c: nat, n: nat)
    requires c <= n <= |row|
    ensures TotalWidth(RowSpans(row, c, n)) == n - c
    decreases n - c
  {
    if c < n {
      var w := RunWidth(row, c, n);
      var rest := RowSpans(row, c + w, n);
      RowSpansWidth(row, c + w, n);
      assert ([Span(c, w)] + rest)[1..] == rest;
    }
  }

  /** A span of row `row` is a maximal run among the first `n` columns: all its
      cells equal its first cell, and the cell after it (if any) differs. */
  predicate MaximalRun<T(==)>(row: seq<T>, n: nat, s: Span)
    requires n <= |row|
  {
    && 1 <= s.width && s.start + s.width <= n
    && (forall k :: s.start <= k < s.start + s.width ==> row[k] == row[s.start])
    && (s.start + s.width == n || row[s.start + s.width] != row[s.start])
  }

  /** Every span is a maximal run of cells equal to its first cell; with
      `RowSpansTile`, two neighbouring spans hold different values. */
  lemma {:induction false} RowSpansMaximal<T>(row: seq<T>, c: nat, n: nat)
    requires c <= n <= |row|
    ensures forall i :: 0 <= i < |RowSpans(row, c, n)| ==> MaximalRun(row, n, RowSpans(row, c, n)[i])
    decreases n - c
  {
    if c < n {
      var w := RunWidth(row, c, n);
      var rest := RowSpans(row, c + w, n);
      var spans := [Span(c, w)] + rest;
      RowSpansUnfold(row, c, n);
      RowSpansMaximal(row, c + w, n);
      forall i | 0 <= i < |spans| ensures MaximalRun(row, n, spans[i]) {
        if i > 0 {
          assert spans[i] == rest[i - 1];
        }
      }
    }
  }

  /** Every span starts inside the first `n` columns. */
  predicate Within(spans: seq<Span>, n: nat) {
    forall i :: 0 <= i < |spans| ==> spans[i].start < n
  }

  /** The spans of a row start inside the row. */
  lemma RowSpansWithin<T>(row: seq<T>, n: nat)
    requires n <= |row|
    ensures Within(RowSpans(row, 0, n), n)
  {
    RowSpansMaximal(row, 0, n);
  }

  /** Whether a span starts at column `k`, judged column by column without
      the cursor: `k` is the scan's first column or its cell differs from the
      cell to its left. */
  predicate IsRunStart<T(==)>(row: seq<T>, c: nat, k: nat)
    requires c <= k < |row|
  {
    k == c || row[k - 1] != row[k]
  }

  /** The spans found column by column, each start being a column where the
      value changes, each width the run there; a reference for `RowSpans`
      that has no cursor. */
  function ColumnSpans<T(==)>(row: seq<T>, c: nat, k: nat, n: nat): seq<Span>
    requires c <= k <= n <= |row|
    decreases n - k
  {
    if k == n then []
    else (if IsRunStart(row, c, k) then [Span(k, RunWidth(row, k, n))] else [])
         + ColumnSpans(row, c, k + 1, n)
  }

  lemma ColumnSpansUnfold<T>(row: seq<T>, c: nat, k: nat, n: nat)
    requires c <= k < n <= |row|
    ensures ColumnSpans(row, c, k, n)
         == (if IsRunStart(row, c, k) then [Span(k, RunWidth(row, k, n))] else []) + ColumnSpans(row, c, k + 1, n)
  {
  }

  /** The reference finds, between columns `k` and `n`, exactly one span per
      run start, as wide as the run there. */
  lemma {:induction false} ColumnSpansMember<T>(row: seq<T>, c: nat, k: nat, n: nat, s: Span)
    requires c <= k <= n <= |row|
    ensures s in ColumnSpans(row, c, k, n)
        <==> k <= s.start < n && IsRunStart(row, c, s.start) && s.width == RunWidth(row, s.start, n)
    decreases n - k
  {
    if k < n {
      var here := if IsRunStart(row, c, k) then [Span(k, RunWidth(row, k, n))] else [];
      var rest := ColumnSpans(row, c, k + 1, n);
      assert ColumnSpans(row, c, k, n) == here + rest;
      assert s in here <==> s.start == k && IsRunStart(row, c, k) && s.width == RunWidth(row, k, n);
      ColumnSpansMember(row, c, k + 1, n, s);
    }
  }

  /** Inside a run no column is a run start, so skipping it changes nothing:
      the columns from `a` to `j - 1` all hold the value at `a`. */
  lemma {:induction false} ColumnSpansSkip<T>(row: seq<T>, c: nat, a: nat, k: nat, j: nat, n: nat)
    requires c <= a < k <= j <= n <= |row|
    requires forall m :: a <= m < j ==> row[m] == row[a]
    ensures ColumnSpans(row, c, k, n) == ColumnSpans(row, c, j, n)
    decreases j - k
  {
    if k < j {
      assert row[k - 1] == row[a] && row[k] == row[a];
      ColumnSpansSkip(row, c, a, k + 1, j, n);
    }
  }

  /** One step of the reference: from a run start it finds the run there,
      then continues as if it had started where the run ends. */
  lemma ColumnSpansStep<T>(row: seq<T>, c: nat, n: nat)
    requires c < n <= |row|
    ensures ColumnSpans(row, c, c, n)
         == [Span(c, RunWidth(row, c, n))] + ColumnSpans(row, c + RunWidth(row, c, n), c + RunWidth(row, c, n), n)
  {
    var w := RunWidth(row, c, n);
    assert ColumnSpans(row, c, c, n) == [Span(c, w)] + ColumnSpans(row, c, c + 1, n);
    ColumnSpansSkip(row, c, c, c + 1, c + w, n);
    if c + w < n {
      assert row[c + w - 1] == row[c];
      ColumnsFrom(row, c, c + w, n);
    }
  }

  /** The cursor scan finds exactly the spans the column-by-column reference
      finds: the spans start precisely where the value changes. */
  lemma {:induction false} RowSpansByColumns<T>(row: seq<T>, c: nat, n: nat)
    requires c <= n <= |row|
    ensures RowSpans(row, c, n) == ColumnSpans(row, c, c, n)
    decreases n - c
  {
    if c < n {
      var w := RunWidth(row, c, n);
      RowSpansUnfold(row, c, n);
      ColumnSpansStep(row, c, n);
      RowSpansByColumns(row, c + w, n);
    }
  }

  /** From a run start the reference does not depend on where the scan began. */
  lemma {:induction false} ColumnsFrom<T>(row: seq<T>, c: nat, k: nat, n: nat)
    requires c < k < n <= |row|
    requires row[k - 1] != row[k]
    ensures ColumnSpans(row, c, k, n) == ColumnSpans(row, k, k, n)
  {
    ColumnsAgree(row, c, k, k, n);
  }

  lemma {:induction false} ColumnsAgree<T>(row: seq<T>, c: nat, c': nat, k: nat, n: nat)
    requires c < c' <= k <= n <= |row|
    requires c' < n ==> row[c' - 1] != row[c']
    ensures ColumnSpans(row, c, k, n) == ColumnSpans(row, c', k, n)
    decreases n - k
  {
    if k < n {
      ColumnSpansUnfold(row, c, k, n);
      ColumnSpansUnfold(row, c', k, n);
      assert IsRunStart(row, c, k) == IsRunStart(row, c', k);
      ColumnsAgree(row, c, c', k + 1, n);
    }
  }

  /** The cell in the row below at column `c` equals this one: a vertical merge starts here. */
  predicate EqualBelow<T(==)>(header: seq<seq<T>>, r: nat, c: nat)
    requires r < |header| && c < |header[r]|
    requires r + 1 < |header| ==> c < |header[r + 1]|
  {
    r + 1 < |header| && header[r + 1][c] == header[r][c]
  }

  /** The cell in the row above at column `c` equals this one: it continues a merge. */
  predicate EqualAbove<T(==)>(header: seq<seq<T>>, r: nat, c: nat)
    requires r < |header| && c < |header[r]|
    requires r > 0 ==> c < |header[r - 1]|
  {
    r > 0 && header[r - 1][c] == header[r][c]
  }
}
