/**
 * What the grouping pass (excel_processor.py:43-103) writes, stated cell by
 * cell: which rows get RNP/2, Copies/mln and Delta, with which value, and
 * that nothing else changes.
 */
module MetricsFacts {
  import opened Cells
  import opened Metrics

  /** The RNP row of the group of row `i`: its first RNP row, if the row has a sample name. */
  function RnpRowOf(t: Table, l: Layout, i: nat): (p: Option<nat>)
    requires Fits(t, l) && i < |t.rows|
    ensures p.Some? ==> p.value < |t.rows| && Marks(t, l, p.value, t.rows[i][l.sample], Rnp)
  {
    if t.rows[i][l.sample].Present() then FirstOf(t, l, t.rows[i][l.sample], Rnp) else None
  }

  /** Row `i` is the first KREC or the first TREC row of its group. */
  predicate FirstTarget(t: Table, l: Layout, i: nat)
    requires Fits(t, l) && i < |t.rows|
  {
    IsFirst(t, l, i, Krec) || IsFirst(t, l, i, Trec)
  }

  /** The seven columns of the layout are pairwise different: no derived column is an input column. */
  lemma LayoutDistinct(t: Table, l: Layout)
    requires Fits(t, l)
    ensures l.half != l.copies && l.half != l.delta && l.copies != l.delta
    ensures l.sample != l.target && l.sample != l.quantity && l.sample != l.ct
    ensures l.target != l.quantity && l.target != l.ct && l.quantity != l.ct
    ensures l.sample != l.half && l.sample != l.copies && l.sample != l.delta
    ensures l.target != l.half && l.target != l.copies && l.target != l.delta
    ensures l.quantity != l.half && l.quantity != l.copies && l.quantity != l.delta
    ensures l.ct != l.half && l.ct != l.copies && l.ct != l.delta
  {
  }

  /**
   * RNP/2 is written on the first RNP row of a group only, as half its
   * Quantity, and only when that Quantity is a number.
   */
  lemma HalfCell(t: Table, l: Layout, parse: string -> Option<real>, i: nat)
    requires Fits(t, l) && NoZeroDivision(t, l) && i < |t.rows|
    ensures var q := t.rows[i][l.quantity];
      DerivedRow(t, l, parse, i)[l.half] ==
        if IsFirst(t, l, i, Rnp) && q.Num? then Num(q.n / 2.0) else t.rows[i][l.half]
  {
    LayoutDistinct(t, l);
  }

  /**
   * Copies/mln is written on the first KREC and the first TREC row of a group
   * that has an RNP row, as k / (q / 2) * 1 000 000, and only when both the
   * row's Quantity k and the RNP Quantity q are numbers.
   */
  lemma CopiesCell(t: Table, l: Layout, parse: string -> Option<real>, i: nat)
    requires Fits(t, l) && NoZeroDivision(t, l) && i < |t.rows|
    ensures var p := RnpRowOf(t, l, i); var k := t.rows[i][l.quantity];
      DerivedRow(t, l, parse, i)[l.copies] ==
        if FirstTarget(t, l, i) && p.Some? && t.rows[p.value][l.quantity].Num? && k.Num? then
          Num(k.n / (t.rows[p.value][l.quantity].n / 2.0) * 1000000.0)
        else t.rows[i][l.copies]
  {
    LayoutDistinct(t, l);
    var p := RnpRowOf(t, l, i);
    if p.Some? && p.value == i {
      assert !FirstTarget(t, l, i);
    }
  }

  /**
   * Delta is written on the first KREC and the first TREC row of a group that
   * has an RNP row, as the row's CT minus the RNP CT, exactly when that
   * difference is defined; the RNP Quantity plays no part.
   */
  lemma DeltaCell(t: Table, l: Layout, parse: string -> Option<real>, i: nat)
    requires Fits(t, l) && NoZeroDivision(t, l) && i < |t.rows|
    ensures var p := RnpRowOf(t, l, i);
      DerivedRow(t, l, parse, i)[l.delta] ==
        if FirstTarget(t, l, i) && p.Some? && DeltaValue(t.rows[p.value][l.ct], t.rows[i][l.ct], parse).Some? then
          Num(DeltaValue(t.rows[p.value][l.ct], t.rows[i][l.ct], parse).value)
        else t.rows[i][l.delta]
  {
    LayoutDistinct(t, l);
    var p := RnpRowOf(t, l, i);
    if p.Some? && p.value == i {
      assert !FirstTarget(t, l, i);
    }
  }

  /** A difference of CTs needs both CTs present and the row's CT not "Undetermined". */
  lemma DeltaNeedsBothCts(rnpCt: Cell, ct: Cell, parse: string -> Option<real>)
    ensures DeltaValue(rnpCt, ct, parse).Some? ==> rnpCt.Present() && ct.Present() && ct != Undetermined
    ensures DeltaValue(rnpCt, Undetermined, parse).None?
  {
  }

  /** Two numeric CTs always give a Delta, whatever the string parser. */
  lemma DeltaOfNumbers(rnpCt: real, ct: real, parse: string -> Option<real>)
    ensures DeltaValue(Num(rnpCt), Num(ct), parse) == Some(ct - rnpCt)
  {
  }

  /** No column other than RNP/2, Copies/mln and Delta is ever written. */
  lemma OtherColumnsKept(t: Table, l: Layout, parse: string -> Option<real>, i: nat, c: nat)
    requires Fits(t, l) && NoZeroDivision(t, l) && i < |t.rows| && c < |t.labels|
    requires c != l.half && c != l.copies && c != l.delta
    ensures DerivedRow(t, l, parse, i)[c] == t.rows[i][c]
  {
  }

  /**
   * Rows that are neither the first RNP row nor the first KREC or TREC row of
   * a group (other targets, later duplicates, rows without a sample name) and
   * rows of groups without an RNP row are left exactly as they were.
   */
  lemma UntouchedRows(t: Table, l: Layout, parse: string -> Option<real>, i: nat)
    requires Fits(t, l) && NoZeroDivision(t, l) && i < |t.rows|
    requires RnpRowOf(t, l, i).None? || (!IsFirst(t, l, i, Rnp) && !FirstTarget(t, l, i))
    ensures DerivedRow(t, l, parse, i) == t.rows[i]
  {
  }

  /** The pass writes only numbers: a blank Copies/mln or Delta cell ends up blank or a number, never text. */
  lemma DerivedCellsNotText(t: Table, l: Layout, parse: string -> Option<real>, i: nat)
    requires Fits(t, l) && NoZeroDivision(t, l) && i < |t.rows|
    requires t.rows[i][l.copies] == Empty && t.rows[i][l.delta] == Empty
    ensures !DerivedRow(t, l, parse, i)[l.copies].Text? && !DerivedRow(t, l, parse, i)[l.delta].Text?
  {
    CopiesCell(t, l, parse, i);
    DeltaCell(t, l, parse, i);
  }

  /** The RNP row itself never gets Copies/mln or Delta. */
  lemma RnpRowGetsHalfOnly(t: Table, l: Layout, parse: string -> Option<real>, i: nat)
    requires Fits(t, l) && NoZeroDivision(t, l) && i < |t.rows| && IsFirst(t, l, i, Rnp)
    ensures DerivedRow(t, l, parse, i)[l.copies] == t.rows[i][l.copies]
    ensures DerivedRow(t, l, parse, i)[l.delta] == t.rows[i][l.delta]
  {
    LayoutDistinct(t, l);
  }

  /** One sample with an RNP, a KREC and a TREC row, all numeric. */
  function ExampleInput(): Table {
    Table([SampleName, TargetName, Quantity, CycleThreshold, RnpHalf, CopiesPerMln, Delta],
          [[Text("S1"), Rnp, Num(20000.0), Num(25.0), Empty, Empty, Empty],
           [Text("S1"), Krec, Num(100.0), Num(30.0), Empty, Empty, Empty],
           [Text("S1"), Trec, Num(50.0), Num(31.0), Empty, Empty, Empty]])
  }

  /** The positions of the example's labels. */
  const ExampleColumns := Layout(0, 1, 2, 3, 4, 5, 6)

  /** In the example, sample S1 has its RNP, KREC and TREC rows in that order and no division by zero. */
  lemma ExampleGroups(t: Table)
    requires t == ExampleInput()
    ensures Fits(t, ExampleColumns)
    ensures FirstOf(t, ExampleColumns, Text("S1"), Rnp) == Some(0)
    ensures FirstOf(t, ExampleColumns, Text("S1"), Krec) == Some(1)
    ensures FirstOf(t, ExampleColumns, Text("S1"), Trec) == Some(2)
    ensures NoZeroDivision(t, ExampleColumns)
  {
    var l := ExampleColumns;
    assert FirstOf(t, l, Text("S1"), Rnp) == Some(0);
    assert FirstOf(t, l, Text("S1"), Krec) == Some(1);
    assert FirstOf(t, l, Text("S1"), Trec) == Some(2);
    forall i | 0 <= i < |t.rows| ensures t.rows[i][l.sample] == Text("S1") {
    }
  }

  /**
   * RNP Quantity 20000 gives RNP/2 = 10000; KREC 100 and TREC 50 give
   * 10000 and 5000 copies per million; CTs 30 and 31 against 25 give Deltas
   * of 5 and 6.
   */
  lemma ExampleDerived(t: Table, parse: string -> Option<real>)
    requires t == ExampleInput()
    ensures Fits(t, ExampleColumns) && NoZeroDivision(t, ExampleColumns)
    ensures DerivedRows(t, ExampleColumns, parse) ==
      [[Text("S1"), Rnp, Num(20000.0), Num(25.0), Num(10000.0), Empty, Empty],
       [Text("S1"), Krec, Num(100.0), Num(30.0), Empty, Num(10000.0), Num(5.0)],
       [Text("S1"), Trec, Num(50.0), Num(31.0), Empty, Num(5000.0), Num(6.0)]]
  {
    ExampleGroups(t);
    var l := ExampleColumns;
    assert DerivedRow(t, l, parse, 0) == [Text("S1"), Rnp, Num(20000.0), Num(25.0), Num(10000.0), Empty, Empty];
    assert DerivedRow(t, l, parse, 1) == [Text("S1"), Krec, Num(100.0), Num(30.0), Empty, Num(10000.0), Num(5.0)];
    assert DerivedRow(t, l, parse, 2) == [Text("S1"), Trec, Num(50.0), Num(31.0), Empty, Num(5000.0), Num(6.0)];
  }

  /**
   * A text KREC Quantity under a numeric RNP Quantity raises TypeError at
   * line 69, so the TREC division at line 78 is never reached: no zero
   * division happens, even when the TREC formula would divide by zero.
   */
  lemma TextKrecShieldsZero(rows: seq<seq<Cell>>, l: Layout, p: nat, krec: Option<nat>, trec: Option<nat>)
    requires p < |rows| && l.quantity < |rows[p]| && rows[p][l.quantity].Num? && TextAt(rows, l, krec)
    ensures CopiesFail(rows, l, p, krec, trec) && !ReachesZeroHalf(rows, l, p, krec, trec)
    ensures ZeroHalf(rows, l, p, krec, trec) <==> rows[p][l.quantity] == Num(0.0) && NumAt(rows, l, trec)
  {
  }

  /**
   * Once a group raises TypeError without having divided by zero, and no
   * earlier group divided by zero, the input is admitted whatever the later
   * groups hold: the loop never reaches them.
   */
  lemma ZeroAfterFailureAdmitted(t: Table, l: Layout, j: nat)
    requires Fits(t, l)
    requires var gs := SampleOrder(Column(t, l.sample));
      j < |gs| && GroupFails(t, l, gs[j]) && forall m :: 0 <= m <= j ==> !GroupReachesZero(t, l, gs[m])
    ensures DivisionsDefined(t, l) && Fails(t, l)
  {
    var keys := Column(t, l.sample);
    var gs := SampleOrder(keys);
    forall k | 0 <= k < |gs| && (forall m :: 0 <= m < k ==> !GroupFails(t, l, gs[m]))
      ensures !GroupReachesZero(t, l, gs[k])
    {
    }
    var i :| 0 <= i < |keys| && keys[i] == gs[j];
    assert t.rows[i][l.sample] == gs[j];
  }
}
