/**
 * `_apply_sample_borders` (excel_processor.py:121-175): every column gets
 * width 15, and a data row gets a medium bottom border on every column when
 * the next row's "Sample Name" differs from its own, and on the last row.
 */
module SampleBorders {
  import opened Cells
  import opened Workbook

  /**
   * Python's `a != b` on two sample names as pandas holds them: a blank
   * (NaN) differs from everything, itself included.
   */
  predicate Differs(a: Cell, b: Cell) {
    a.Empty? || b.Empty? || a != b
  }

  /** Data row `r` closes a run of equal sample names: it is the last row, or the next name differs. */
  predicate ClosesRun(samples: seq<Cell>, r: nat)
    requires r < |samples|
  {
    r == |samples| - 1 || Differs(samples[r], samples[r + 1])
  }

  /** The column numbers of a sheet `maxColumn` columns wide. */
  function Columns(maxColumn: nat): (cs: set<nat>)
    ensures forall c :: c in cs <==> 1 <= c <= maxColumn
  {
    if maxColumn == 0 then {} else Columns(maxColumn - 1) + {maxColumn}
  }

  /** The data rows that get a border: those that close a run. */
  function BorderRows(samples: seq<Cell>): set<nat> {
    set r: nat | r < |samples| && ClosesRun(samples, r)
  }

  /** The bordered positions: every column of the sheet row (data row + 2) of each run-closing data row. */
  function BorderCells(samples: seq<Cell>, maxColumn: nat): set<Position> {
    set r, c | r in BorderRows(samples) && c in Columns(maxColumn) :: (r + 2, c)
  }

  /** The data rows before `k` whose successor also lies before `k` and has another name. */
  function ChangesBefore(samples: seq<Cell>, k: nat): set<nat>
    requires k <= |samples|
  {
    set r: nat | r + 1 < k && ClosesRun(samples, r)
  }

  /** The bordered positions of the rows in `ChangesBefore(samples, k)`. */
  function BordersBefore(samples: seq<Cell>, k: nat, maxColumn: nat): set<Position>
    requires k <= |samples|
  {
    set r, c | r in ChangesBefore(samples, k) && c in Columns(maxColumn) :: (r + 2, c)
  }

  /** Every column of sheet row `row`. */
  function RowCells(row: nat, maxColumn: nat): set<Position> {
    set c | c in Columns(maxColumn) :: (row, c)
  }

  /** The widths after lines 132-134: 15 for every column of the sheet. */
  function UniformWidths(maxColumn: nat): map<nat, nat> {
    map c | c in Columns(maxColumn) :: ColumnWidth
  }

  /** Lines 156-158 (or 169-171): a bottom border on every column of sheet row `row`. */
  method BorderRow(ws: Worksheet, row: nat)
    modifies ws
    ensures ws.borders == old(ws.borders) + RowCells(row, ws.maxColumn)
    ensures ws.cells == old(ws.cells) && ws.maxColumn == old(ws.maxColumn) && ws.title == old(ws.title)
    ensures ws.widths == old(ws.widths) && ws.fills == old(ws.fills)
  {
    var col := 1;
    while col <= ws.maxColumn
      invariant 1 <= col <= ws.maxColumn + 1
      invariant ws.borders == old(ws.borders) + RowCells(row, col - 1)
      invariant ws.cells == old(ws.cells) && ws.maxColumn == old(ws.maxColumn) && ws.title == old(ws.title)
      invariant ws.widths == old(ws.widths) && ws.fills == old(ws.fills)
    {
      ws.borders := ws.borders + {(row, col)};
      col := col + 1;
    }
  }

  /** Lines 132-134: every column of the sheet gets width 15. */
  method SetWidths(ws: Worksheet)
    modifies ws
    ensures ws.widths == old(ws.widths) + UniformWidths(ws.maxColumn)
    ensures ws.cells == old(ws.cells) && ws.maxColumn == old(ws.maxColumn) && ws.title == old(ws.title)
    ensures ws.borders == old(ws.borders) && ws.fills == old(ws.fills)
  {
    var col := 1;
    while col <= ws.maxColumn
      invariant 1 <= col <= ws.maxColumn + 1
      invariant ws.widths == old(ws.widths) + UniformWidths(col - 1)
      invariant ws.cells == old(ws.cells) && ws.maxColumn == old(ws.maxColumn) && ws.title == old(ws.title)
      invariant ws.borders == old(ws.borders) && ws.fills == old(ws.fills)
    {
      ws.widths := ws.widths[col := ColumnWidth];
      col := col + 1;
    }
  }

  /** One more visited row `k` adds the border of row `k - 1` when the names at `k - 1` and `k` differ. */
  lemma BordersBeforeStep(samples: seq<Cell>, k: nat, maxColumn: nat)
    requires 0 < k < |samples|
    ensures BordersBefore(samples, k + 1, maxColumn) ==
            BordersBefore(samples, k, maxColumn) +
            (if Differs(samples[k - 1], samples[k]) then RowCells(k + 1, maxColumn) else {})
  {
    var next := BordersBefore(samples, k + 1, maxColumn);
    var prev := BordersBefore(samples, k, maxColumn);
    var added := if Differs(samples[k - 1], samples[k]) then RowCells(k + 1, maxColumn) else {};
    forall p | p in next ensures p in prev + added {
      var r, c :| r in ChangesBefore(samples, k + 1) && c in Columns(maxColumn) && p == (r + 2, c);
      if r + 1 < k {
        assert r in ChangesBefore(samples, k);
      }
    }
    forall p | p in prev + added ensures p in next {
      if p in added {
        assert k - 1 in ChangesBefore(samples, k + 1) && p == (k - 1 + 2, p.1);
      } else {
        var r, c :| r in ChangesBefore(samples, k) && c in Columns(maxColumn) && p == (r + 2, c);
        assert r in ChangesBefore(samples, k + 1);
      }
    }
  }

  /** All rows visited, plus the final border, give exactly the run-closing rows. */
  lemma BordersComplete(samples: seq<Cell>, maxColumn: nat)
    requires 0 < |samples|
    ensures BorderCells(samples, maxColumn) ==
            BordersBefore(samples, |samples|, maxColumn) + RowCells(|samples| + 1, maxColumn)
  {
    var n := |samples|;
    var all := BorderCells(samples, maxColumn);
    var parts := BordersBefore(samples, n, maxColumn) + RowCells(n + 1, maxColumn);
    forall p | p in all ensures p in parts {
      var r, c :| r in BorderRows(samples) && c in Columns(maxColumn) && p == (r + 2, c);
      if r + 1 < n {
        assert r in ChangesBefore(samples, n);
      }
    }
    forall p | p in parts ensures p in all {
      if p in RowCells(n + 1, maxColumn) {
        assert n - 1 in BorderRows(samples) && p == ((n - 1) + 2, p.1);
      } else {
        var r, c :| r in ChangesBefore(samples, n) && c in Columns(maxColumn) && p == (r + 2, c);
        assert r in BorderRows(samples);
      }
    }
  }

  /**
   * `_apply_sample_borders(file_path, df)` on the sheet `df` was written to;
   * `sc` is the position of "Sample Name" (`row_data['Sample Name']`).
   */
  method ApplySampleBorders(ws: Worksheet, t: Table, sc: nat)
    requires t.WellFormed() && sc < |t.labels|
    modifies ws
    ensures ws.widths == old(ws.widths) + UniformWidths(ws.maxColumn)
    ensures ws.borders == old(ws.borders) + BorderCells(Column(t, sc), ws.maxColumn)
    ensures ws.cells == old(ws.cells) && ws.maxColumn == old(ws.maxColumn) && ws.title == old(ws.title)
    ensures ws.fills == old(ws.fills)
  {
    SetWidths(ws);
    ghost var samples := Column(t, sc);
    ghost var before := ws.borders;
    var current: Option<Cell> := None;
    var rowCount := 0;
    var idx := 0;
    while idx < |t.rows|
      invariant 0 <= idx <= |t.rows|
      invariant ws.borders == before + BordersBefore(samples, idx, ws.maxColumn)
      invariant idx == 0 ==> current.None? && rowCount == 0
      invariant idx > 0 ==> current == Some(samples[idx - 1]) && rowCount > 0
      invariant ws.widths == old(ws.widths) + UniformWidths(ws.maxColumn)
      invariant ws.cells == old(ws.cells) && ws.maxColumn == old(ws.maxColumn) && ws.title == old(ws.title)
      invariant ws.fills == old(ws.fills)
    {
      var sampleName := t.rows[idx][sc];
      var excelRow := idx + 2;
      // `current_sample != sample_name`, with None before the first row
      if current.None? || Differs(current.value, sampleName) {
        if current.Some? && rowCount > 0 {
          BorderRow(ws, excelRow - 1);
        }
        current := Some(sampleName);
        rowCount := 1;
      } else {
        rowCount := rowCount + 1;
      }
      if idx > 0 {
        BordersBeforeStep(samples, idx, ws.maxColumn);
      } else {
        assert BordersBefore(samples, 1, ws.maxColumn) == {};
      }
      idx := idx + 1;
    }
    if rowCount > 0 {
      BorderRow(ws, |t.rows| + 1);
      BordersComplete(samples, ws.maxColumn);
    } else {
      assert BorderCells(samples, ws.maxColumn) == {};
    }
  }

  /** A sheet position is bordered exactly when it lies, within the sheet's columns, on the row of a run-closing data row. */
  lemma BorderCellsMembership(samples: seq<Cell>, maxColumn: nat, row: nat, col: nat)
    ensures (row, col) in BorderCells(samples, maxColumn) <==>
            2 <= row < |samples| + 2 && 1 <= col <= maxColumn && ClosesRun(samples, row - 2)
  {
    if 2 <= row < |samples| + 2 && 1 <= col <= maxColumn && ClosesRun(samples, row - 2) {
      assert row - 2 in BorderRows(samples) && col in Columns(maxColumn);
      assert (row, col) == ((row - 2) + 2, col);
    }
  }

  /** An empty table gets no border at all (`row_count` stays 0). */
  lemma NoRowsNoBorders(maxColumn: nat)
    ensures BorderCells([], maxColumn) == {}
  {
  }

  /** Every row has a sample name and the rows of each sample are adjacent. */
  predicate Grouped(samples: seq<Cell>) {
    (forall i :: 0 <= i < |samples| ==> samples[i].Present()) &&
    forall i, j, k :: 0 <= i < j < k < |samples| && samples[i] == samples[k] ==> samples[j] == samples[i]
  }

  /**
   * When the samples are grouped, a row is bordered exactly when no later row
   * has its name: the border falls under the last row of each sample, however
   * many rows the sample has.
   */
  lemma GroupedBorders(samples: seq<Cell>, r: nat)
    requires Grouped(samples) && r < |samples|
    ensures r in BorderRows(samples) <==> forall j :: r < j < |samples| ==> samples[j] != samples[r]
  {
    if r in BorderRows(samples) && r + 1 < |samples| {
      assert samples[r + 1] != samples[r];
      forall j | r < j < |samples| ensures samples[j] != samples[r] {
      }
    }
  }

  /** A sample whose rows are not adjacent is bordered after each of its runs: with names A, B, A every row is bordered. */
  lemma SplitSampleBordered(samples: seq<Cell>)
    requires samples == [Text("A"), Text("B"), Text("A")]
    ensures BorderRows(samples) == {0, 1, 2}
  {
    assert ClosesRun(samples, 0) && ClosesRun(samples, 1) && ClosesRun(samples, 2);
  }

  /** A row without a sample name (NaN) is bordered, and so is the row before it. */
  lemma BlankBordered(samples: seq<Cell>, r: nat)
    requires r < |samples| && samples[r].Empty?
    ensures r in BorderRows(samples)
    ensures r > 0 ==> r - 1 in BorderRows(samples)
  {
  }
}
