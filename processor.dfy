/**
 * `process_excel_file` (excel_processor.py:8-118) end to end: locate the
 * header, reshape, derive the metrics, write the "Results" sheet, border it
 * and highlight it.
 */
module Processor {
  import opened Cells
  import opened Frame
  import opened HeaderLocator
  import opened Metrics
  import opened OutputPath
  import opened Workbook
  import opened SampleBorders
  import opened Parameters
  import opened Highlight
  import MetricsFacts

  /** The frame before the grouping pass: the re-read below the header, reshaped (lines 32-41). */
  function Prepared(sheet: seq<seq<Cell>>, headerRow: nat): (t: Table)
    requires Rectangular(sheet) && headerRow < |sheet|
    ensures t.WellFormed() && forall d :: d in DerivedLabels ==> d in t.labels
  {
    ReshapedBlanksDerived(Rebase(sheet, headerRow));
    Reshaped(Rebase(sheet, headerRow))
  }

  /** The bordered positions of the sheet written from `u` (its "Sample Name" column, `|u.labels|` columns wide). */
  function SheetBorders(u: Table): set<Position>
    requires u.WellFormed() && SampleName in u.labels
  {
    BorderCells(Column(u, IndexOf(u.labels, SampleName).value), |u.labels|)
  }

  /** A run can be processed: the grid is rectangular, the parameters readable, and the grouping loop never executes a division by a zero RNP/2. */
  predicate Processable(sheet: seq<seq<Cell>>, src: ParamSource) {
    Rectangular(sheet) && Readable(src) &&
    (HeaderIndex(sheet).Some? ==> DivisionsDefinedIn(Prepared(sheet, HeaderIndex(sheet).value)))
  }

  /** Lines 32-41: the re-read below the header, then the column drop and the three assignments, in place. */
  method PrepareFrame(sheet: seq<seq<Cell>>, headerRow: nat) returns (df: DataFrame)
    requires Rectangular(sheet) && headerRow < |sheet|
    ensures fresh(df) && df.Valid() && df.Value() == Prepared(sheet, headerRow)
  {
    df := new DataFrame.Read(sheet, headerRow);
    df.DropColumns(Unwanted);
    df.AssignEmpty(RnpHalf);
    df.AssignEmpty(CopiesPerMln);
    df.AssignEmpty(Delta);
  }

  /**
   * Lines 110-118: write `u` to a fresh "Results" sheet, border it, then
   * highlight it; `r` is the path returned or the error the highlight pass
   * raised.
   */
  method WriteResults(u: Table, path: FilePath, src: ParamSource) returns (ws: Worksheet, r: Result<FilePath>)
    requires u.WellFormed() && SampleName in u.labels && Readable(src)
    ensures fresh(ws)
    ensures ws.title == SheetTitle && ws.cells == Written(u) && ws.maxColumn == |u.labels|
    ensures ws.widths == UniformWidths(|u.labels|) && ws.borders == SheetBorders(u)
    ensures match Formatting(u, ParametersOf(src))
            case Ok(fills) => ws.fills == fills && r == Ok(path)
            case Err(e) => ws.fills == {} && r == Err(e)
  {
    ws := new Worksheet.Write(u);
    var sampleCol := IndexOf(u.labels, SampleName);
    ApplySampleBorders(ws, u, sampleCol.value);
    var highlightErr := ApplyConditionalFormatting(ws, u, src);
    if highlightErr.Some? {
      return ws, Err(highlightErr.value);
    }
    return ws, Ok(path);
  }

  /**
   * `process_excel_file(input, output)`. `ws` is the saved "Results" sheet,
   * or null when nothing was written; `r` is the returned path or the
   * exception raised. A failed highlight pass raises after the bordered
   * sheet was saved, so that sheet carries no fill.
   */
  method ProcessExcelFile(sheet: seq<seq<Cell>>, input: FilePath, output: Option<FilePath>,
                          src: ParamSource, parse: string -> Option<real>)
    returns (ws: Worksheet?, r: Result<FilePath>)
    requires Processable(sheet, src)
    ensures HeaderIndex(sheet).None? ==> ws == null && r == Err(HeaderNotFound)
    ensures HeaderIndex(sheet).Some? ==>
      match Transformed(Prepared(sheet, HeaderIndex(sheet).value), parse)
      case Err(e) => ws == null && r == Err(e)
      case Ok(u) =>
        && ws != null && fresh(ws)
        && ws.title == SheetTitle && ws.cells == Written(u) && ws.maxColumn == |u.labels|
        && ws.widths == UniformWidths(|u.labels|)
        && ws.borders == SheetBorders(u)
        && match Formatting(u, ParametersOf(src))
           case Ok(fills) => ws.fills == fills && r == Ok(Destination(input, output))
           case Err(e) => ws.fills == {} && r == Err(e)
  {
    var headerRow := FindHeaderRow(sheet);
    if headerRow.None? {
      // raise ValueError("Could not find 'Well Position' header in the file")
      return null, Err(HeaderNotFound);
    }
    var df := PrepareFrame(sheet, headerRow.value);
    var err := DeriveMetrics(df, parse);
    if err.Some? {
      return null, Err(err.value);
    }
    var path := Destination(input, output);
    ws, r := WriteResults(df.Value(), path, src);
  }

  /**
   * The grouping pass writes only numbers into Copies/mln and Delta, which
   * reshaping left blank; so on the pipeline's own frame numeric thresholds
   * never make the highlight pass raise.
   */
  lemma DerivedCellsNumeric(sheet: seq<seq<Cell>>, headerRow: nat, parse: string -> Option<real>, params: Params)
    requires Rectangular(sheet) && headerRow < |sheet| && DivisionsDefinedIn(Prepared(sheet, headerRow))
    requires Transformed(Prepared(sheet, headerRow), parse).Ok? && NumericThresholds(params)
    ensures Formatting(Transformed(Prepared(sheet, headerRow), parse).value, params).Ok?
  {
    var t := Prepared(sheet, headerRow);
    var u := Transformed(t, parse).value;
    var cols := HeaderColumns(u.labels);
    if cols.Some? {
      ReshapedBlanksDerived(Rebase(sheet, headerRow));
      TransformedNotText(t, parse);
      NumericNeverFails(u, cols.value, params, |u.rows|);
    }
  }

  /** After a successful pass over a frame whose Copies/mln and Delta are blank, those columns hold no text. */
  lemma TransformedNotText(t: Table, parse: string -> Option<real>)
    requires t.WellFormed() && DivisionsDefinedIn(t) && forall d :: d in DerivedLabels ==> d in t.labels
    requires BlankColumn(t, CopiesPerMln) && BlankColumn(t, Delta)
    requires Transformed(t, parse).Ok?
    ensures var u := Transformed(t, parse).value; var c := IndexOf(u.labels, CopiesPerMln).value; var d := IndexOf(u.labels, Delta).value;
      forall i :: 0 <= i < |u.rows| ==> !u.rows[i][c].Text? && !u.rows[i][d].Text?
  {
    var u := Transformed(t, parse).value;
    var l := ResolveLayout(t.labels);
    if u.rows != t.rows {
      assert l.Some? && !Fails(t, l.value);
      DefinedWhenSucceeds(t, l.value);
      assert u.rows == DerivedRows(t, l.value, parse);
      forall i | 0 <= i < |u.rows| ensures !u.rows[i][l.value.copies].Text? && !u.rows[i][l.value.delta].Text? {
        MetricsFacts.DerivedCellsNotText(t, l.value, parse, i);
      }
    }
  }

  /** The default thresholds are numbers. */
  lemma DefaultsNumeric()
    ensures NumericThresholds(Defaults())
  {
  }
}
