/**
 * Values shared by every stage of the KREC/TREC pipeline: spreadsheet cells,
 * the table a frame holds, the errors that abort a run, and the column labels
 * and target markers the pipeline looks for.
 */
module Cells {

  datatype Option<T> = None | Some(value: T)

  /** A spreadsheet cell as pandas reads it: blank (NaN), a number, or text. */
  datatype Cell = Empty | Num(n: real) | Text(s: string)
  {
    /** `pd.notna(cell)`: the cell holds a value. */
    predicate Present() {
      !Empty?
    }
  }

  /** Fatal conditions that abort `process_excel_file`. */
  datatype Error =
    | HeaderNotFound              // no "Well Position" cell anywhere
    | MissingColumn(column: string) // KeyError on a column the grouping pass reads
    | NonNumericQuantity          // TypeError dividing a text Quantity
    | MissingParameter(key: string) // KeyError on a threshold a read parameters file lacks
    | Incomparable(key: string)     // TypeError comparing a value with a threshold of another type

  datatype Result<T> = Ok(value: T) | Err(error: Error)

  /** A data frame's value: column labels and rows of cells. */
  datatype Table = Table(labels: seq<Cell>, rows: seq<seq<Cell>>)
  {
    /** Every row has one cell per column. */
    predicate WellFormed() {
      forall i :: 0 <= i < |rows| ==> |rows[i]| == |labels|
    }
  }

  const WellPosition: Cell := Text("Well Position")
  const SampleName: Cell := Text("Sample Name")
  const TargetName: Cell := Text("Target Name")
  const Quantity: Cell := Text("Quantity")
  const CycleThreshold: Cell := Text("CT")
  const RnpHalf: Cell := Text("RNP/2")
  const CopiesPerMln: Cell := Text("Copies/mln")
  const Delta: Cell := Text("Delta")

  const Rnp: Cell := Text("RNP")
  const Krec: Cell := Text("KREC")
  const Trec: Cell := Text("TREC")
  const Undetermined: Cell := Text("Undetermined")

  /** The first position of `x` in `s` (`list.index`, or a label lookup in a frame). */
  function IndexOf(s: seq<Cell>, x: Cell): (r: Option<nat>)
    ensures r.Some? ==> r.value < |s| && s[r.value] == x && x !in s[..r.value]
    ensures r.None? <==> x !in s
  {
    if |s| == 0 then None
    else if s[0] == x then Some(0)
    else match IndexOf(s[1..], x)
      case None => None
      case Some(i) =>
        assert s[..i + 1] == [s[0]] + s[1..][..i];
        Some(i + 1)
  }

  /** Cutting `s` after a position that already holds `x` does not move its first position. */
  lemma IndexOfPrefix(s: seq<Cell>, n: nat, x: Cell)
    requires n <= |s| && x in s[..n]
    ensures IndexOf(s, x) == IndexOf(s[..n], x)
  {
    var i := IndexOf(s[..n], x).value;
    assert s[..n][..i] == s[..i];
  }

  /** The values of column `c`, top to bottom. */
  function Column(t: Table, c: nat): (col: seq<Cell>)
    requires t.WellFormed() && c < |t.labels|
    ensures |col| == |t.rows|
  {
    seq(|t.rows|, i requires 0 <= i < |t.rows| => t.rows[i][c])
  }
}
