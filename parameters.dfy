/**
 * `_load_parameters` (excel_processor.py:178-206): the highlighting
 * thresholds, read from "parameters.xlsx" as one `Parameter`/`Value` pair per
 * row, or the four defaults when that file is absent or cannot be read.
 */
module Parameters {
  import opened Cells

  /** What opening "parameters.xlsx" in the working directory gives. */
  datatype ParamSource =
    | NoFile           // `os.path.exists` is false
    | Unreadable       // `pd.read_excel` raised
    | Sheet(table: Table)

  /** The parameters dictionary: names to values, both as the cells they were read from. */
  type Params = map<Cell, Cell>

  const MinKrecCopies: string := "min_krec_copies"
  const MinTrecCopies: string := "min_trec_copies"
  const MaxKrecDelta: string := "max_krec_delta"
  const MaxTrecDelta: string := "max_trec_delta"

  const ParameterLabel: Cell := Text("Parameter")
  const ValueLabel: Cell := Text("Value")

  /** The built-in thresholds (lines 185-190). */
  function Defaults(): (d: Params)
    ensures d.Keys == {Text(MinKrecCopies), Text(MinTrecCopies), Text(MaxKrecDelta), Text(MaxTrecDelta)}
  {
    map[Text(MinKrecCopies) := Num(10000.0), Text(MinTrecCopies) := Num(10000.0),
        Text(MaxKrecDelta) := Num(11.5), Text(MaxTrecDelta) := Num(12.0)]
  }

  /** A source `_load_parameters` can read: a sheet is rectangular. */
  predicate Readable(src: ParamSource) {
    src.Sheet? ==> src.table.WellFormed()
  }

  /** `params[row['Parameter']] = row['Value']` for the first `n` rows, in order. */
  function Assigned(rows: seq<seq<Cell>>, pc: nat, vc: nat, n: nat): Params
    requires n <= |rows| && forall i :: 0 <= i < |rows| ==> pc < |rows[i]| && vc < |rows[i]|
  {
    if n == 0 then map[] else Assigned(rows, pc, vc, n - 1)[rows[n - 1][pc] := rows[n - 1][vc]]
  }

  /**
   * The dictionary `_load_parameters` returns: the defaults without a
   * readable file; an empty dictionary for a sheet without rows; the defaults
   * when a sheet with rows lacks a "Parameter" or "Value" column (the
   * KeyError is caught); otherwise exactly the pairs in the sheet.
   */
  function ParametersOf(src: ParamSource): Params
    requires Readable(src)
  {
    match src
    case NoFile => Defaults()
    case Unreadable => Defaults()
    case Sheet(t) =>
      if |t.rows| == 0 then map[]
      else match (IndexOf(t.labels, ParameterLabel), IndexOf(t.labels, ValueLabel))
        case (Some(pc), Some(vc)) => Assigned(t.rows, pc, vc, |t.rows|)
        case _ => Defaults()
  }

  /** `_load_parameters()` */
  method LoadParameters(src: ParamSource) returns (params: Params)
    requires Readable(src)
    ensures params == ParametersOf(src)
  {
    if !src.Sheet? {
      return Defaults();
    }
    var t := src.table;
    var pc := IndexOf(t.labels, ParameterLabel);
    var vc := IndexOf(t.labels, ValueLabel);
    params := map[];
    var i := 0;
    while i < |t.rows|
      invariant 0 <= i <= |t.rows|
      invariant i > 0 ==> pc.Some? && vc.Some? && params == Assigned(t.rows, pc.value, vc.value, i)
      invariant i == 0 ==> params == map[]
    {
      if pc.None? || vc.None? {
        // `row['Parameter']` or `row['Value']` raises KeyError; the handler falls back
        return Defaults();
      }
      params := params[t.rows[i][pc.value] := t.rows[i][vc.value]];
      i := i + 1;
    }
  }

  /** The names in the dictionary are exactly the names in the first `n` rows. */
  lemma {:induction false} AssignedKeys(rows: seq<seq<Cell>>, pc: nat, vc: nat, n: nat, k: Cell)
    requires n <= |rows| && forall i :: 0 <= i < |rows| ==> pc < |rows[i]| && vc < |rows[i]|
    ensures k in Assigned(rows, pc, vc, n) <==> exists i :: 0 <= i < n && rows[i][pc] == k
  {
    if n > 0 {
      AssignedKeys(rows, pc, vc, n - 1, k);
      if k in Assigned(rows, pc, vc, n) && k != rows[n - 1][pc] {
        var i :| 0 <= i < n - 1 && rows[i][pc] == k;
      }
    }
  }

  /** A name given on several rows keeps the value of the last of them. */
  lemma {:induction false} LastValueWins(rows: seq<seq<Cell>>, pc: nat, vc: nat, n: nat, i: nat)
    requires n <= |rows| && forall j :: 0 <= j < |rows| ==> pc < |rows[j]| && vc < |rows[j]|
    requires i < n && forall j :: i < j < n ==> rows[j][pc] != rows[i][pc]
    ensures rows[i][pc] in Assigned(rows, pc, vc, n)
    ensures Assigned(rows, pc, vc, n)[rows[i][pc]] == rows[i][vc]
  {
    if i < n - 1 {
      LastValueWins(rows, pc, vc, n - 1, i);
    }
  }

  /** Without a readable file every threshold has its default. */
  lemma DefaultsWithoutFile(src: ParamSource)
    requires src.NoFile? || src.Unreadable?
    ensures ParametersOf(src) == Defaults()
    ensures ParametersOf(src)[Text(MinKrecCopies)] == Num(10000.0) && ParametersOf(src)[Text(MinTrecCopies)] == Num(10000.0)
    ensures ParametersOf(src)[Text(MaxKrecDelta)] == Num(11.5) && ParametersOf(src)[Text(MaxTrecDelta)] == Num(12.0)
  {
  }

  /**
   * A readable sheet with both columns and at least one row replaces the
   * defaults as a whole: a threshold it does not name is absent, not
   * defaulted.
   */
  lemma {:induction false} NoPerKeyDefault(src: ParamSource, k: Cell)
    requires Readable(src) && src.Sheet? && |src.table.rows| > 0
    requires ParameterLabel in src.table.labels && ValueLabel in src.table.labels
    ensures var pc := IndexOf(src.table.labels, ParameterLabel).value;
      k in ParametersOf(src) <==> exists i :: 0 <= i < |src.table.rows| && src.table.rows[i][pc] == k
  {
    var t := src.table;
    AssignedKeys(t.rows, IndexOf(t.labels, ParameterLabel).value, IndexOf(t.labels, ValueLabel).value, |t.rows|, k);
  }

  /** A sheet with rows but without a "Parameter" or "Value" column gives the defaults. */
  lemma MissingColumnDefaults(src: ParamSource)
    requires Readable(src) && src.Sheet? && |src.table.rows| > 0
    requires ParameterLabel !in src.table.labels || ValueLabel !in src.table.labels
    ensures ParametersOf(src) == Defaults()
  {
  }

  /** A sheet without rows gives no thresholds at all, whatever its columns. */
  lemma EmptySheetNoParameters(src: ParamSource)
    requires src.Sheet? && src.table.rows == []
    ensures ParametersOf(src) == map[]
  {
  }
}
