/**
 * `_apply_conditional_formatting` (excel_processor.py:209-267): a solid
 * yellow fill on the Copies/mln cell of a KREC or TREC row below its minimum
 * and on its Delta cell above its maximum, the thresholds coming from
 * `_load_parameters`.
 */
module Highlight {
  import opened Cells
  import opened Workbook
  import opened Parameters

  /** Python's `<` on two strings: code point by code point, a proper prefix first. */
  function StrLess(a: string, b: string): bool {
    if |a| == 0 then |b| > 0
    else if |b| == 0 then false
    else if a[0] != b[0] then a[0] < b[0]
    else StrLess(a[1..], b[1..])
  }

  /**
   * Python's `a < b` on two cells: numbers compare, NaN compares false, two
   * strings compare as strings, and anything else raises TypeError, reported
   * against the threshold `key`.
   */
  function Below(a: Cell, b: Cell, key: string): Result<bool> {
    match (a, b)
    case (Num(x), Num(y)) => Ok(x < y)
    case (Text(x), Text(y)) => Ok(StrLess(x, y))
    case (Empty, Text(_)) => Err(Incomparable(key))
    case (Text(_), Empty) => Err(Incomparable(key))
    case (Text(_), Num(_)) => Err(Incomparable(key))
    case (Num(_), Text(_)) => Err(Incomparable(key))
    case _ => Ok(false)
  }

  /**
   * `pd.notna(value) and value < params[key]` (or `value > params[key]` when
   * `above`): a blank value is never filled and never looks the threshold up.
   */
  function Flagged(value: Cell, params: Params, key: string, above: bool): Result<bool> {
    if !value.Present() then Ok(false)
    else if Text(key) !in params then Err(MissingParameter(key))
    else if above then Below(params[Text(key)], value, key)
    else Below(value, params[Text(key)], key)
  }

  /** The threshold names of a target: (minimum copies, maximum Delta), for KREC and TREC only. */
  function ThresholdKeys(target: Cell): (r: Option<(string, string)>)
    ensures r.Some? <==> target == Krec || target == Trec
  {
    if target == Krec then Some((MinKrecCopies, MaxKrecDelta))
    else if target == Trec then Some((MinTrecCopies, MaxTrecDelta))
    else None
  }

  /** The positions (from 0) of "Copies/mln", "Delta" and "Target Name". */
  datatype FormatColumns = FormatColumns(copies: nat, delta: nat, target: nat)

  /** Three columns inside a row `width` wide, the two highlighted ones distinct. */
  predicate ColumnsFit(cols: FormatColumns, width: nat) {
    cols.copies < width && cols.delta < width && cols.target < width && cols.copies != cols.delta
  }

  /** The `header_row.index(...)` lookups (lines 229-236): all three columns, or none. */
  function HeaderColumns(header: seq<Cell>): (r: Option<FormatColumns>)
    ensures r.Some? ==> ColumnsFit(r.value, |header|) && header[r.value.copies] == CopiesPerMln &&
                        header[r.value.delta] == Delta && header[r.value.target] == TargetName
    ensures r.None? <==> CopiesPerMln !in header || Delta !in header || TargetName !in header
  {
    match (IndexOf(header, CopiesPerMln), IndexOf(header, Delta), IndexOf(header, TargetName))
    case (Some(c), Some(d), Some(g)) => Some(FormatColumns(c, d, g))
    case _ => None
  }

  /** Lines 240-263 for one row: whether its Copies/mln and its Delta cell are filled, or the error raised. */
  function RowFills(row: seq<Cell>, cols: FormatColumns, params: Params): Result<(bool, bool)>
    requires ColumnsFit(cols, |row|)
  {
    match ThresholdKeys(row[cols.target])
    case None => Ok((false, false))
    case Some((minKey, maxKey)) =>
      match Flagged(row[cols.copies], params, minKey, false)
      case Err(e) => Err(e)
      case Ok(low) =>
        match Flagged(row[cols.delta], params, maxKey, true)
        case Err(e) => Err(e)
        case Ok(high) => Ok((low, high))
  }

  /** `fills` plus the cells of sheet row `sheetRow` that `flags` marks, or the error `flags` holds. */
  function AddRow(fills: set<Position>, flags: Result<(bool, bool)>, sheetRow: nat, cols: FormatColumns): Result<set<Position>> {
    match flags
    case Err(e) => Err(e)
    case Ok((low, high)) =>
      Ok(fills + (if low then {(sheetRow, cols.copies + 1)} else {}) +
                 (if high then {(sheetRow, cols.delta + 1)} else {}))
  }

  /** The filled positions for the first `n` data rows (data row `i` is sheet row `i + 2`), or the first error. */
  function FillsBefore(t: Table, cols: FormatColumns, params: Params, n: nat): Result<set<Position>>
    requires t.WellFormed() && ColumnsFit(cols, |t.labels|) && n <= |t.rows|
  {
    if n == 0 then Ok({})
    else match FillsBefore(t, cols, params, n - 1)
      case Err(e) => Err(e)
      case Ok(fills) => AddRow(fills, RowFills(t.rows[n - 1], cols, params), n + 1, cols)
  }

  /**
   * What `_apply_conditional_formatting` adds to a sheet written from `t`:
   * nothing when a column is missing, otherwise the fills of every row, or
   * the error of the first row that raises.
   */
  function Formatting(t: Table, params: Params): Result<set<Position>>
    requires t.WellFormed()
  {
    match HeaderColumns(t.labels)
    case None => Ok({})
    case Some(cols) => FillsBefore(t, cols, params, |t.rows|)
  }

  /** Once a row raises, the outcome stays that error. */
  lemma {:induction false} ErrorPersists(t: Table, cols: FormatColumns, params: Params, k: nat, n: nat)
    requires t.WellFormed() && ColumnsFit(cols, |t.labels|) && k <= n <= |t.rows|
    requires FillsBefore(t, cols, params, k).Err?
    ensures FillsBefore(t, cols, params, n) == FillsBefore(t, cols, params, k)
  {
    if k < n {
      ErrorPersists(t, cols, params, k, n - 1);
    }
  }

  /** The body of the row loop (lines 240-263): the fills after one more row, or the error it raises. */
  method HighlightRow(row: seq<Cell>, sheetRow: nat, cols: FormatColumns, params: Params, fills: set<Position>)
    returns (r: Result<set<Position>>)
    requires ColumnsFit(cols, |row|)
    ensures r == AddRow(fills, RowFills(row, cols, params), sheetRow, cols)
  {
    // `if target_name == 'KREC': ... elif target_name == 'TREC': ...`
    var keys := ThresholdKeys(row[cols.target]);
    if keys.None? {
      return Ok(fills);
    }
    var (minKey, maxKey) := keys.value;
    var low := Flagged(row[cols.copies], params, minKey, false);
    if low.Err? {
      return Err(low.error);
    }
    var lowCells: set<Position> := if low.value then {(sheetRow, cols.copies + 1)} else {};
    var high := Flagged(row[cols.delta], params, maxKey, true);
    if high.Err? {
      return Err(high.error);
    }
    var highCells: set<Position> := if high.value then {(sheetRow, cols.delta + 1)} else {};
    r := Ok(fills + lowCells + highCells);
  }

  /** The row loop (lines 240-263): the fills of every row, or the error of the first row that raises. */
  method HighlightRows(t: Table, cols: FormatColumns, params: Params) returns (r: Result<set<Position>>)
    requires t.WellFormed() && ColumnsFit(cols, |t.labels|)
    ensures r == FillsBefore(t, cols, params, |t.rows|)
  {
    var fills: set<Position> := {};
    var i := 0;
    while i < |t.rows|
      invariant 0 <= i <= |t.rows|
      invariant FillsBefore(t, cols, params, i) == Ok(fills)
    {
      r := HighlightRow(t.rows[i], i + 2, cols, params, fills);
      assert FillsBefore(t, cols, params, i + 1) == r;
      if r.Err? {
        ErrorPersists(t, cols, params, i + 1, |t.rows|);
        return r;
      }
      fills := r.value;
      i := i + 1;
    }
    r := Ok(fills);
  }

  /**
   * `_apply_conditional_formatting(file_path, df)` on the sheet `df` was
   * written to. On an error the sheet is not saved, so it keeps no fill.
   */
  method ApplyConditionalFormatting(ws: Worksheet, t: Table, src: ParamSource) returns (err: Option<Error>)
    requires t.WellFormed() && Readable(src) && ws.Header() == t.labels
    modifies ws
    ensures match Formatting(t, ParametersOf(src))
      case Ok(fills) => err.None? && ws.fills == old(ws.fills) + fills
      case Err(e) => err == Some(e) && ws.fills == old(ws.fills)
    ensures ws.cells == old(ws.cells) && ws.maxColumn == old(ws.maxColumn) && ws.title == old(ws.title)
    ensures ws.widths == old(ws.widths) && ws.borders == old(ws.borders)
  {
    var params := LoadParameters(src);
    var header := ws.Header();
    var copiesCol := IndexOf(header, CopiesPerMln);
    var deltaCol := IndexOf(header, Delta);
    var targetCol := IndexOf(header, TargetName);
    if copiesCol.None? || deltaCol.None? || targetCol.None? {
      // ValueError from `header_row.index`: a warning, and nothing is saved
      return None;
    }
    var cols := FormatColumns(copiesCol.value, deltaCol.value, targetCol.value);
    assert HeaderColumns(t.labels) == Some(cols);
    var r := HighlightRows(t, cols, params);
    if r.Err? {
      // the exception propagates before `wb.save`
      return Some(r.error);
    }
    ws.fills := ws.fills + r.value;
    err := None;
  }

  /** Every filled position lies on a data row's sheet row, in the Copies/mln or the Delta column. */
  lemma {:induction false} FillsWhere(t: Table, cols: FormatColumns, params: Params, n: nat, p: Position)
    requires t.WellFormed() && ColumnsFit(cols, |t.labels|) && n <= |t.rows|
    requires FillsBefore(t, cols, params, n).Ok? && p in FillsBefore(t, cols, params, n).value
    ensures 2 <= p.0 < n + 2 && (p.1 == cols.copies + 1 || p.1 == cols.delta + 1)
  {
    if n > 0 {
      var prev := FillsBefore(t, cols, params, n - 1);
      if p in prev.value {
        FillsWhere(t, cols, params, n - 1, p);
      }
    }
  }

  /** The Copies/mln and Delta cells of a data row are filled exactly as that row's check says. */
  lemma {:induction false} FillsOfRow(t: Table, cols: FormatColumns, params: Params, n: nat, i: nat)
    requires t.WellFormed() && ColumnsFit(cols, |t.labels|) && i < n <= |t.rows|
    requires FillsBefore(t, cols, params, n).Ok?
    ensures RowFills(t.rows[i], cols, params).Ok?
    ensures var fills := FillsBefore(t, cols, params, n).value;
            var flags := RowFills(t.rows[i], cols, params).value;
            ((i + 2, cols.copies + 1) in fills <==> flags.0) && ((i + 2, cols.delta + 1) in fills <==> flags.1)
  {
    var prev := FillsBefore(t, cols, params, n - 1);
    if i < n - 1 {
      FillsOfRow(t, cols, params, n - 1, i);
    } else {
      if (i + 2, cols.copies + 1) in prev.value {
        FillsWhere(t, cols, params, n - 1, (i + 2, cols.copies + 1));
      }
      if (i + 2, cols.delta + 1) in prev.value {
        FillsWhere(t, cols, params, n - 1, (i + 2, cols.delta + 1));
      }
    }
  }

  /** A threshold that is present and a number. */
  predicate IsNumber(params: Params, key: string) {
    Text(key) in params && params[Text(key)].Num?
  }

  /** All four thresholds are numbers, as the defaults are. */
  predicate NumericThresholds(params: Params) {
    IsNumber(params, MinKrecCopies) && IsNumber(params, MinTrecCopies) &&
    IsNumber(params, MaxKrecDelta) && IsNumber(params, MaxTrecDelta)
  }

  function Threshold(params: Params, key: string): real
    requires IsNumber(params, key)
  {
    params[Text(key)].n
  }

  /** The Copies/mln and Delta cells hold numbers or blanks, as the grouping pass leaves them. */
  predicate NumericCells(t: Table, cols: FormatColumns)
    requires t.WellFormed() && ColumnsFit(cols, |t.labels|)
  {
    forall i :: 0 <= i < |t.rows| ==> !t.rows[i][cols.copies].Text? && !t.rows[i][cols.delta].Text?
  }

  /** With numeric thresholds and numeric cells no row raises. */
  lemma {:induction false} NumericNeverFails(t: Table, cols: FormatColumns, params: Params, n: nat)
    requires t.WellFormed() && ColumnsFit(cols, |t.labels|) && n <= |t.rows|
    requires NumericThresholds(params) && NumericCells(t, cols)
    ensures FillsBefore(t, cols, params, n).Ok?
  {
    if n > 0 {
      NumericNeverFails(t, cols, params, n - 1);
    }
  }

  /**
   * The highlighting rule: with numeric thresholds and cells, a KREC (TREC)
   * row's Copies/mln cell is filled exactly when it holds a number below
   * min_krec_copies (min_trec_copies), and its Delta cell exactly when it
   * holds a number above max_krec_delta (max_trec_delta).
   */
  lemma ThresholdRules(t: Table, params: Params, i: nat)
    requires t.WellFormed() && HeaderColumns(t.labels).Some? && i < |t.rows|
    requires NumericThresholds(params) && NumericCells(t, HeaderColumns(t.labels).value)
    ensures Formatting(t, params).Ok?
    ensures var cols := HeaderColumns(t.labels).value;
            var row := t.rows[i]; var c := row[cols.copies]; var d := row[cols.delta];
            var fills := Formatting(t, params).value;
            ((i + 2, cols.copies + 1) in fills <==>
              c.Num? && ((row[cols.target] == Krec && c.n < Threshold(params, MinKrecCopies)) ||
                         (row[cols.target] == Trec && c.n < Threshold(params, MinTrecCopies)))) &&
            ((i + 2, cols.delta + 1) in fills <==>
              d.Num? && ((row[cols.target] == Krec && d.n > Threshold(params, MaxKrecDelta)) ||
                         (row[cols.target] == Trec && d.n > Threshold(params, MaxTrecDelta))))
  {
    var cols := HeaderColumns(t.labels).value;
    NumericNeverFails(t, cols, params, |t.rows|);
    FillsOfRow(t, cols, params, |t.rows|, i);
  }

  /** Rows of any other target (RNP, SMN1, blank, ...) are never filled. */
  lemma OtherTargetsNotFilled(t: Table, params: Params, i: nat, p: Position)
    requires t.WellFormed() && i < |t.rows| && Formatting(t, params).Ok?
    requires HeaderColumns(t.labels).Some? ==>
             t.rows[i][HeaderColumns(t.labels).value.target] != Krec && t.rows[i][HeaderColumns(t.labels).value.target] != Trec
    requires p in Formatting(t, params).value
    ensures p.0 != i + 2
  {
    var cols := HeaderColumns(t.labels).value;
    FillsWhere(t, cols, params, |t.rows|, p);
    FillsOfRow(t, cols, params, |t.rows|, i);
  }

  /** Without all three columns in the header nothing is filled and nothing can fail. */
  lemma MissingColumnNoFill(t: Table, params: Params)
    requires t.WellFormed()
    requires CopiesPerMln !in t.labels || Delta !in t.labels || TargetName !in t.labels
    ensures Formatting(t, params) == Ok({})
  {
  }

  /**
   * A KREC or TREC row with a Copies/mln value makes a missing minimum for
   * its target an error (a parameters file that omits it replaces the
   * defaults, so the KeyError escapes).
   */
  lemma MissingKeyRaises(t: Table, params: Params, i: nat)
    requires t.WellFormed() && HeaderColumns(t.labels).Some? && i < |t.rows|
    requires var cols := HeaderColumns(t.labels).value; var keys := ThresholdKeys(t.rows[i][cols.target]);
             keys.Some? && t.rows[i][cols.copies].Present() && Text(keys.value.0) !in params
    ensures Formatting(t, params).Err?
  {
    var cols := HeaderColumns(t.labels).value;
    if FillsBefore(t, cols, params, i).Err? {
      ErrorPersists(t, cols, params, i, |t.rows|);
    } else {
      assert FillsBefore(t, cols, params, i + 1).Err?;
      ErrorPersists(t, cols, params, i + 1, |t.rows|);
    }
  }

  /**
   * With the default thresholds the comparisons are strict: KREC copies of
   * 9999.9 are filled, a KREC Delta of exactly 11.5 is not, TREC copies of
   * 10000.1 are not, and a TREC Delta of 12.5 is.
   */
  lemma DefaultThresholdsExample(t: Table)
    requires t == Table([TargetName, CopiesPerMln, Delta],
                        [[Krec, Num(9999.9), Num(11.5)], [Trec, Num(10000.1), Num(12.5)]])
    ensures Formatting(t, Defaults()).Ok? && Formatting(t, Defaults()).value == {(2, 2), (3, 3)}
  {
    assert HeaderColumns(t.labels) == Some(FormatColumns(1, 2, 0));
    var cols := FormatColumns(1, 2, 0);
    var d := Defaults();
    assert d[Text(MinKrecCopies)] == Num(10000.0) && d[Text(MaxKrecDelta)] == Num(11.5);
    assert d[Text(MinTrecCopies)] == Num(10000.0) && d[Text(MaxTrecDelta)] == Num(12.0);
    assert RowFills(t.rows[0], cols, d) == Ok((true, false));
    assert RowFills(t.rows[1], cols, d) == Ok((false, true));
    assert FillsBefore(t, cols, d, 0) == Ok({});
    assert FillsBefore(t, cols, d, 1) == AddRow({}, RowFills(t.rows[0], cols, d), 2, cols);
    assert FillsBefore(t, cols, d, 1).value == {(2, 2)};
  }
}
