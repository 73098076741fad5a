/**
 * The data frame of `process_excel_file` from the re-read with the located
 * header up to the three appended columns (excel_processor.py:32-41).
 */
module Frame {
  import opened Cells

  /** Instrument columns removed when present (line 35). */
  const Unwanted: set<Cell> :=
    {Text("Target Color"), Text("CQCONF"), Text("EXPFAIL"), Text("NOAMP")}

  /** The columns the pipeline appends and later fills (lines 39-41). */
  const DerivedLabels: set<Cell> := {RnpHalf, CopiesPerMln, Delta}

  /** A grid read by pandas: every row has the same number of cells. */
  predicate Rectangular(sheet: seq<seq<Cell>>) {
    forall i, j :: 0 <= i < |sheet| && 0 <= j < |sheet| ==> |sheet[i]| == |sheet[j]|
  }

  /**
   * Re-reading with `skiprows=headerRow`: the header row's cells become the
   * labels and the rows strictly below it are the data rows.
   */
  function Rebase(sheet: seq<seq<Cell>>, headerRow: nat): (t: Table)
    requires Rectangular(sheet) && headerRow < |sheet|
    ensures t.WellFormed()
    ensures t.labels == sheet[headerRow] && |t.rows| == |sheet| - headerRow - 1
    ensures forall i :: 0 <= i < |t.rows| ==> t.rows[i] == sheet[headerRow + 1 + i]
  {
    Table(sheet[headerRow], sheet[headerRow + 1..])
  }

  /** Positions of the columns whose label is not in `drop`, left to right. */
  function KeptColumns(labels: seq<Cell>, drop: set<Cell>): (ks: seq<nat>)
    ensures forall k :: 0 <= k < |ks| ==> ks[k] < |labels| && labels[ks[k]] !in drop
    ensures forall k, m :: 0 <= k < m < |ks| ==> ks[k] < ks[m]
    ensures forall c :: 0 <= c < |labels| && labels[c] !in drop ==> c in ks
  {
    if |labels| == 0 then []
    else
      var n := |labels| - 1;
      var ks := KeptColumns(labels[..n], drop);
      if labels[n] in drop then ks else ks + [n]
  }

  /** The cells of `row` at positions `ks`, in that order. */
  function Project(row: seq<Cell>, ks: seq<nat>): (r: seq<Cell>)
    requires forall k :: 0 <= k < |ks| ==> ks[k] < |row|
    ensures |r| == |ks|
  {
    seq(|ks|, k requires 0 <= k < |ks| => row[ks[k]])
  }

  /** `df.drop(columns=[c for c in drop if c in df.columns])` */
  function Dropped(t: Table, drop: set<Cell>): (u: Table)
    requires t.WellFormed()
    ensures u.WellFormed() && |u.rows| == |t.rows|
    ensures forall x :: x in drop ==> x !in u.labels
  {
    var ks := KeptColumns(t.labels, drop);
    Table(Project(t.labels, ks), seq(|t.rows|, i requires 0 <= i < |t.rows| => Project(t.rows[i], ks)))
  }

  /**
   * `df[name] = None`: the column labelled `name` is blanked where it stands,
   * or a blank column is appended when there is none.
   */
  function WithEmptyColumn(t: Table, name: Cell): (u: Table)
    requires t.WellFormed()
    ensures u.WellFormed() && |u.rows| == |t.rows|
    ensures |t.labels| <= |u.labels| && u.labels[..|t.labels|] == t.labels
    ensures name in t.labels ==> u.labels == t.labels
    ensures name !in t.labels ==> u.labels == t.labels + [name]
    ensures IndexOf(u.labels, name).Some?
    ensures forall i :: 0 <= i < |u.rows| ==> u.rows[i][IndexOf(u.labels, name).value] == Empty
    ensures forall i, c :: 0 <= i < |u.rows| && 0 <= c < |t.labels| && c != IndexOf(u.labels, name).value ==>
              u.rows[i][c] == t.rows[i][c]
  {
    match IndexOf(t.labels, name)
    case Some(c) =>
      Table(t.labels, seq(|t.rows|, i requires 0 <= i < |t.rows| => t.rows[i][c := Empty]))
    case None =>
      var u := Table(t.labels + [name], seq(|t.rows|, i requires 0 <= i < |t.rows| => t.rows[i] + [Empty]));
      assert u.labels[..|t.labels|] == t.labels;
      u
  }

  /** Lines 35-41 together: drop the instrument columns, then assign RNP/2, Copies/mln and Delta. */
  function Reshaped(t: Table): (u: Table)
    requires t.WellFormed()
    ensures u.WellFormed() && |u.rows| == |t.rows|
  {
    WithEmptyColumn(WithEmptyColumn(WithEmptyColumn(Dropped(t, Unwanted), RnpHalf), CopiesPerMln), Delta)
  }

  /** Blanking or appending one column leaves the first position of every other label where it was. */
  lemma WithEmptyColumnKeepsIndex(t: Table, name: Cell, other: Cell)
    requires t.WellFormed() && other in t.labels
    ensures IndexOf(WithEmptyColumn(t, name).labels, other) == IndexOf(t.labels, other)
  {
    var u := WithEmptyColumn(t, name);
    var i := IndexOf(t.labels, other).value;
    assert u.labels[..i] == t.labels[..i];
  }

  /** Labels of the reshaped frame start with those of the dropped frame. */
  lemma ReshapedExtendsDropped(t: Table)
    requires t.WellFormed()
    ensures var t0 := Dropped(t, Unwanted); var u := Reshaped(t);
      |t0.labels| <= |u.labels| && u.labels[..|t0.labels|] == t0.labels
  {
    var t0 := Dropped(t, Unwanted);
    var t1 := WithEmptyColumn(t0, RnpHalf);
    var t2 := WithEmptyColumn(t1, CopiesPerMln);
    var u := WithEmptyColumn(t2, Delta);
    assert t1.labels[..|t0.labels|] == t0.labels;
    assert t2.labels[..|t1.labels|] == t1.labels;
    assert u.labels[..|t2.labels|] == t2.labels;
    assert u.labels[..|t0.labels|] == t2.labels[..|t1.labels|][..|t0.labels|];
  }

  /** `[name]` when `labels` lacks `name`, and nothing when it has it. */
  function Absent(labels: seq<Cell>, name: Cell): seq<Cell> {
    if name in labels then [] else [name]
  }

  /**
   * Reshaping appends RNP/2, Copies/mln and Delta after the kept columns, in
   * that order, skipping any of them the frame already has (that one is
   * blanked where it stands); a frame with none of them gets all three.
   */
  lemma {:induction false} ReshapedAppendsInOrder(t: Table)
    requires t.WellFormed()
    ensures var L := Dropped(t, Unwanted).labels;
      Reshaped(t).labels == L + Absent(L, RnpHalf) + Absent(L, CopiesPerMln) + Absent(L, Delta)
    ensures var L := Dropped(t, Unwanted).labels;
      (forall d :: d in DerivedLabels ==> d !in L) ==> Reshaped(t).labels == L + [RnpHalf, CopiesPerMln, Delta]
  {
    DerivedAssigned(Dropped(t, Unwanted));
    NoneAbsent(Dropped(t, Unwanted).labels);
  }

  /** With none of the derived labels present, all three are appended. */
  lemma NoneAbsent(labels: seq<Cell>)
    ensures (forall d :: d in DerivedLabels ==> d !in labels) ==>
      labels + Absent(labels, RnpHalf) + Absent(labels, CopiesPerMln) + Absent(labels, Delta) ==
        labels + [RnpHalf, CopiesPerMln, Delta]
  {
    if forall d :: d in DerivedLabels ==> d !in labels {
      assert RnpHalf in DerivedLabels && CopiesPerMln in DerivedLabels && Delta in DerivedLabels;
      assert labels + [RnpHalf] + [CopiesPerMln] + [Delta] == labels + [RnpHalf, CopiesPerMln, Delta];
    }
  }

  /** The three assignments of lines 39-41 on any frame: each absent label is appended, in order. */
  lemma DerivedAssigned(t0: Table)
    requires t0.WellFormed()
    ensures var L := t0.labels;
      WithEmptyColumn(WithEmptyColumn(WithEmptyColumn(t0, RnpHalf), CopiesPerMln), Delta).labels ==
        L + Absent(L, RnpHalf) + Absent(L, CopiesPerMln) + Absent(L, Delta)
  {
    var t1 := WithEmptyColumn(t0, RnpHalf);
    var t2 := WithEmptyColumn(t1, CopiesPerMln);
    var L := t0.labels;
    AssignedLabels(t0, RnpHalf);
    AssignedLabels(t1, CopiesPerMln);
    AssignedLabels(t2, Delta);
    AbsentPast(L, RnpHalf, CopiesPerMln);
    AbsentPast(L + Absent(L, RnpHalf), CopiesPerMln, Delta);
    AbsentPast(L, RnpHalf, Delta);
  }

  /** Appending `a` when absent does not change whether another label `name` is absent. */
  lemma AbsentPast(labels: seq<Cell>, a: Cell, name: Cell)
    requires a != name
    ensures Absent(labels + Absent(labels, a), name) == Absent(labels, name)
  {
  }

  /** `df[name] = None` changes the labels only by appending `name` when it is absent. */
  lemma AssignedLabels(t: Table, name: Cell)
    requires t.WellFormed()
    ensures WithEmptyColumn(t, name).labels == t.labels + Absent(t.labels, name)
  {
  }

  /** Blanking or appending `name` brings in no label other than `name`. */
  lemma WithEmptyColumnAddsOnly(t: Table, name: Cell, x: Cell)
    requires t.WellFormed() && x != name && x !in t.labels
    ensures x !in WithEmptyColumn(t, name).labels
  {
  }

  /** No unwanted column survives reshaping, whether or not it was present. */
  lemma ReshapedDropsUnwanted(t: Table)
    requires t.WellFormed()
    ensures forall x :: x in Unwanted ==> x !in Reshaped(t).labels
  {
    var t0 := Dropped(t, Unwanted);
    var t1 := WithEmptyColumn(t0, RnpHalf);
    var t2 := WithEmptyColumn(t1, CopiesPerMln);
    assert Unwanted !! DerivedLabels;
    forall x | x in Unwanted ensures x !in Reshaped(t).labels {
      assert x !in DerivedLabels;
      WithEmptyColumnAddsOnly(t0, RnpHalf, x);
      WithEmptyColumnAddsOnly(t1, CopiesPerMln, x);
      WithEmptyColumnAddsOnly(t2, Delta, x);
    }
  }

  /** Column `name` exists and every cell under its first occurrence is blank. */
  predicate BlankColumn(t: Table, name: Cell)
    requires t.WellFormed()
  {
    IndexOf(t.labels, name).Some? &&
    forall i :: 0 <= i < |t.rows| ==> t.rows[i][IndexOf(t.labels, name).value] == Empty
  }

  /** Blanking or appending a column keeps every blank column blank. */
  lemma WithEmptyColumnKeepsBlank(t: Table, name: Cell, other: Cell)
    requires t.WellFormed() && BlankColumn(t, other)
    ensures BlankColumn(WithEmptyColumn(t, name), other)
  {
    WithEmptyColumnKeepsIndex(t, name, other);
  }

  /** Each appended column exists after reshaping and is blank in every row. */
  lemma ReshapedBlanksDerived(t: Table)
    requires t.WellFormed()
    ensures var u := Reshaped(t);
      u.WellFormed() && BlankColumn(u, RnpHalf) && BlankColumn(u, CopiesPerMln) && BlankColumn(u, Delta)
    ensures forall d :: d in DerivedLabels ==> d in Reshaped(t).labels
  {
    var t0 := Dropped(t, Unwanted);
    var t1 := WithEmptyColumn(t0, RnpHalf);
    var t2 := WithEmptyColumn(t1, CopiesPerMln);
    WithEmptyColumnKeepsBlank(t1, CopiesPerMln, RnpHalf);
    WithEmptyColumnKeepsBlank(t2, Delta, RnpHalf);
    WithEmptyColumnKeepsBlank(t2, Delta, CopiesPerMln);
  }

  /**
   * The kept columns keep their relative order and, unless one of them is
   * itself an appended label, their cells.
   */
  lemma ReshapedKeepsColumns(t: Table)
    requires t.WellFormed()
    ensures var u := Reshaped(t); var ks := KeptColumns(t.labels, Unwanted);
      && u.WellFormed() && |u.rows| == |t.rows|
      && |ks| <= |u.labels| && u.labels[..|ks|] == Project(t.labels, ks)
      && forall i, c :: 0 <= i < |u.rows| && 0 <= c < |ks| && t.labels[ks[c]] !in DerivedLabels ==>
           u.rows[i][c] == t.rows[i][ks[c]]
  {
    ReshapedExtendsDropped(t);
    var ks := KeptColumns(t.labels, Unwanted);
    var t0 := Dropped(t, Unwanted);
    var t1 := WithEmptyColumn(t0, RnpHalf);
    var t2 := WithEmptyColumn(t1, CopiesPerMln);
    var u := WithEmptyColumn(t2, Delta);
    forall i, c | 0 <= i < |u.rows| && 0 <= c < |ks| && t.labels[ks[c]] !in DerivedLabels
      ensures u.rows[i][c] == t.rows[i][ks[c]]
    {
      assert t0.labels[c] == t.labels[ks[c]] && t0.rows[i][c] == t.rows[i][ks[c]];
      WithEmptyColumnKeepsCell(t0, RnpHalf, i, c);
      WithEmptyColumnKeepsCell(t1, CopiesPerMln, i, c);
      WithEmptyColumnKeepsCell(t2, Delta, i, c);
    }
  }

  /** A cell outside the column labelled `name` is untouched by `df[name] = None`. */
  lemma WithEmptyColumnKeepsCell(t: Table, name: Cell, i: nat, c: nat)
    requires t.WellFormed() && i < |t.rows| && c < |t.labels| && t.labels[c] != name
    ensures WithEmptyColumn(t, name).labels[c] == t.labels[c]
    ensures WithEmptyColumn(t, name).rows[i][c] == t.rows[i][c]
  {
    var u := WithEmptyColumn(t, name);
    assert u.labels[..|t.labels|][c] == u.labels[c];
  }

  /** The frame `df` of `process_excel_file`, updated in place. */
  class DataFrame {
    var labels: seq<Cell>
    var rows: seq<seq<Cell>>

    function Value(): Table
      reads this
    {
      Table(labels, rows)
    }

    ghost predicate Valid()
      reads this
    {
      Value().WellFormed()
    }

    /** `pd.read_excel(path, sheet_name=0, skiprows=headerRow)` (line 32). */
    constructor Read(sheet: seq<seq<Cell>>, headerRow: nat)
      requires Rectangular(sheet) && headerRow < |sheet|
      ensures Valid() && Value() == Rebase(sheet, headerRow)
    {
      labels := sheet[headerRow];
      rows := sheet[headerRow + 1..];
    }

    /** `df = df.drop(columns=..., errors='ignore')` (line 36). */
    method DropColumns(drop: set<Cell>)
      requires Valid()
      modifies this
      ensures Valid() && Value() == Dropped(old(Value()), drop)
    {
      var t := Dropped(Value(), drop);
      labels, rows := t.labels, t.rows;
    }

    /** `df[name] = None` (lines 39-41). */
    method AssignEmpty(name: Cell)
      requires Valid()
      modifies this
      ensures Valid() && Value() == WithEmptyColumn(old(Value()), name)
    {
      var t := WithEmptyColumn(Value(), name);
      labels, rows := t.labels, t.rows;
    }

    /** `df.loc[i, labels[c]] = v`: one cell changes, nothing else. */
    method SetCell(i: nat, c: nat, v: Cell)
      requires Valid() && i < |rows| && c < |labels|
      modifies this
      ensures Valid() && labels == old(labels)
      ensures rows == old(rows)[i := old(rows)[i][c := v]]
    {
      rows := rows[i := rows[i][c := v]];
    }
  }
}
