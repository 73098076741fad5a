/**
 * Locating the real header of a raw qPCR export (excel_processor.py:19-29):
 * the first row of the grid with a cell equal to "Well Position".
 */
module HeaderLocator {
  import opened Cells

  /** The header row as a value: the least index of a row holding "Well Position". */
  function HeaderIndex(sheet: seq<seq<Cell>>): (r: Option<nat>)
    ensures r.Some? ==> r.value < |sheet| && WellPosition in sheet[r.value]
    ensures r.Some? ==> forall i :: 0 <= i < r.value ==> WellPosition !in sheet[i]
    ensures r.None? <==> forall i :: 0 <= i < |sheet| ==> WellPosition !in sheet[i]
  {
    if |sheet| == 0 then None
    else if WellPosition in sheet[0] then Some(0)
    else match HeaderIndex(sheet[1..])
      case None =>
        assert forall i :: 1 <= i < |sheet| ==> sheet[i] == sheet[1..][i - 1];
        None
      case Some(h) =>
        assert forall i :: 1 <= i <= h ==> sheet[i] == sheet[1..][i - 1];
        Some(h + 1)
  }

  /** `any(cell == "Well Position" for cell in row if pd.notna(cell))` */
  method RowHasHeaderCell(row: seq<Cell>) returns (found: bool)
    ensures found <==> WellPosition in row
  {
    found := false;
    var j := 0;
    while j < |row| && !found
      invariant 0 <= j <= |row|
      invariant found <==> WellPosition in row[..j]
    {
      var cell := row[j];
      if cell.Present() && cell == WellPosition {
        found := true;
      }
      j := j + 1;
    }
    assert !found ==> row[..j] == row;
  }

  /** The scan over rows that stops at the first header row (lines 22-26). */
  method FindHeaderRow(sheet: seq<seq<Cell>>) returns (headerRow: Option<nat>)
    ensures headerRow == HeaderIndex(sheet)
    ensures headerRow.Some? ==> headerRow.value < |sheet| && WellPosition in sheet[headerRow.value]
    ensures headerRow.None? <==> forall i :: 0 <= i < |sheet| ==> WellPosition !in sheet[i]
  {
    headerRow := None;
    var idx := 0;
    while idx < |sheet|
      invariant 0 <= idx <= |sheet|
      invariant forall i :: 0 <= i < idx ==> WellPosition !in sheet[i]
    {
      var hit := RowHasHeaderCell(sheet[idx]);
      if hit {
        headerRow := Some(idx);
        return;
      }
      idx := idx + 1;
    }
  }
}
