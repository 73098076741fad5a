/**
 * The "Results" sheet of the output workbook: the cells `df.to_excel` writes
 * (excel_processor.py:110) and the styling the two later passes set on it.
 * Sheet rows and columns are numbered from 1, as in a spreadsheet.
 */
module Workbook {
  import opened Cells

  /** The sheet name `to_excel` is given and the later passes open. */
  const SheetTitle: string := "Results"

  /** The width every column gets (line 134). */
  const ColumnWidth: nat := 15

  /** A position on the sheet: (row, column), both from 1. */
  type Position = (nat, nat)

  /** The cells of `df.to_excel(path, index=False)`: the labels on row 1, data row `i` on row `i + 2`. */
  function Written(t: Table): (cells: seq<seq<Cell>>)
    ensures |cells| == |t.rows| + 1 && cells[0] == t.labels
    ensures forall i :: 0 <= i < |t.rows| ==> cells[i + 1] == t.rows[i]
  {
    [t.labels] + t.rows
  }

  class Worksheet {
    var title: string
    /** Row `r` of the sheet is `cells[r - 1]`. */
    var cells: seq<seq<Cell>>
    /** `ws.max_column` */
    var maxColumn: nat
    /** Column widths set so far, by column number. */
    var widths: map<nat, nat>
    /** Cells with a medium bottom border. */
    var borders: set<Position>
    /** Cells with a solid yellow fill. */
    var fills: set<Position>

    /** `df.to_excel(path, index=False, sheet_name="Results")` on a fresh file. */
    constructor Write(t: Table)
      ensures title == SheetTitle && cells == Written(t) && maxColumn == |t.labels|
      ensures widths == map[] && borders == {} && fills == {}
    {
      title := SheetTitle;
      cells := Written(t);
      maxColumn := |t.labels|;
      widths := map[];
      borders := {};
      fills := {};
    }

    /** `[cell.value for cell in ws[1]]`: the header row. */
    function Header(): seq<Cell>
      reads this
    {
      if |cells| > 0 then cells[0] else []
    }
  }
}
