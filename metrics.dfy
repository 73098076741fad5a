/**
 * The per-sample computation of `process_excel_file` (excel_processor.py:43-103):
 * rows are grouped by "Sample Name" in order of first appearance and, inside a
 * group, the first RNP, KREC and TREC rows give RNP/2, Copies/mln and Delta.
 */
module Metrics {
  import opened Cells
  import Frame

  /** Positions of the columns the pass reads and writes. */
  datatype Layout = Layout(sample: nat, target: nat, quantity: nat, ct: nat, half: nat, copies: nat, delta: nat)

  /** Every position of `l` holds its label in `labels`. */
  predicate Places(labels: seq<Cell>, l: Layout) {
    && l.sample < |labels| && labels[l.sample] == SampleName
    && l.target < |labels| && labels[l.target] == TargetName
    && l.quantity < |labels| && labels[l.quantity] == Quantity
    && l.ct < |labels| && labels[l.ct] == CycleThreshold
    && l.half < |labels| && labels[l.half] == RnpHalf
    && l.copies < |labels| && labels[l.copies] == CopiesPerMln
    && l.delta < |labels| && labels[l.delta] == Delta
  }

  predicate Fits(t: Table, l: Layout) {
    t.WellFormed() && Places(t.labels, l)
  }

  /** Label lookups `df[...]` / `df.loc[..., label]`: the first column carrying each label. */
  function ResolveLayout(labels: seq<Cell>): (r: Option<Layout>)
    ensures r.Some? ==> Places(labels, r.value)
    ensures r.Some? ==> r.value.copies == IndexOf(labels, CopiesPerMln).value && r.value.delta == IndexOf(labels, Delta).value
    ensures r.Some? <==> (SampleName in labels && TargetName in labels && Quantity in labels &&
                          CycleThreshold in labels && RnpHalf in labels && CopiesPerMln in labels && Delta in labels)
  {
    match (IndexOf(labels, SampleName), IndexOf(labels, TargetName), IndexOf(labels, Quantity),
           IndexOf(labels, CycleThreshold), IndexOf(labels, RnpHalf), IndexOf(labels, CopiesPerMln),
           IndexOf(labels, Delta))
    case (Some(s), Some(g), Some(q), Some(c), Some(h), Some(m), Some(d)) => Some(Layout(s, g, q, c, h, m, d))
    case _ => None
  }

  /** Row `i` belongs to sample `g` and has target `target`. */
  predicate Marks(t: Table, l: Layout, i: nat, g: Cell, target: Cell)
    requires Fits(t, l) && i < |t.rows|
  {
    t.rows[i][l.sample] == g && t.rows[i][l.target] == target
  }

  /** The first row at or after `from` of sample `g` with target `target`. */
  function FirstFrom(t: Table, l: Layout, g: Cell, target: Cell, from: nat): (r: Option<nat>)
    requires Fits(t, l) && from <= |t.rows|
    decreases |t.rows| - from
    ensures r.Some? ==> from <= r.value < |t.rows| && Marks(t, l, r.value, g, target)
  {
    if from == |t.rows| then None
    else if Marks(t, l, from, g, target) then Some(from)
    else FirstFrom(t, l, g, target, from + 1)
  }

  /** `FirstFrom` finds the least marked row at or after `from`, and finds nothing only when there is none. */
  lemma {:induction false} FirstFromLeast(t: Table, l: Layout, g: Cell, target: Cell, from: nat)
    requires Fits(t, l) && from <= |t.rows|
    decreases |t.rows| - from
    ensures var r := FirstFrom(t, l, g, target, from);
      r.Some? ==> forall j :: from <= j < r.value ==> !Marks(t, l, j, g, target)
    ensures FirstFrom(t, l, g, target, from).None? <==> forall j :: from <= j < |t.rows| ==> !Marks(t, l, j, g, target)
  {
    if from < |t.rows| && !Marks(t, l, from, g, target) {
      FirstFromLeast(t, l, g, target, from + 1);
    }
  }

  /** `group[group["Target Name"] == target].index[0]`, if any. */
  function FirstOf(t: Table, l: Layout, g: Cell, target: Cell): (r: Option<nat>)
    requires Fits(t, l)
    ensures r.Some? ==> r.value < |t.rows| && Marks(t, l, r.value, g, target)
  {
    FirstFrom(t, l, g, target, 0)
  }

  /** `FirstOf` is the least row of `g` with `target`, and is absent exactly when the group has no such row. */
  lemma FirstOfLeast(t: Table, l: Layout, g: Cell, target: Cell)
    requires Fits(t, l)
    ensures var r := FirstOf(t, l, g, target);
      r.Some? ==> forall j :: 0 <= j < r.value ==> !Marks(t, l, j, g, target)
    ensures FirstOf(t, l, g, target).None? <==> forall j :: 0 <= j < |t.rows| ==> !Marks(t, l, j, g, target)
  {
    FirstFromLeast(t, l, g, target, 0);
  }

  /**
   * The keys of `groupby("Sample Name", sort=False)`: every present sample
   * name once (blank names are dropped).
   */
  function SampleOrder(keys: seq<Cell>): (gs: seq<Cell>)
    ensures forall k :: 0 <= k < |gs| ==> gs[k].Present() && gs[k] in keys
    ensures forall i :: 0 <= i < |keys| && keys[i].Present() ==> keys[i] in gs
    ensures forall a, b :: 0 <= a < b < |gs| ==> gs[a] != gs[b]
  {
    if |keys| == 0 then []
    else
      var n := |keys| - 1;
      var gs := SampleOrder(keys[..n]);
      if keys[n].Empty? || keys[n] in gs then gs else gs + [keys[n]]
  }

  /** The names of `gs` first appear in `keys` in the order they have in `gs`. */
  predicate InFirstAppearanceOrder(keys: seq<Cell>, gs: seq<Cell>)
    requires forall k :: 0 <= k < |gs| ==> gs[k] in keys
  {
    forall a, b :: 0 <= a < b < |gs| ==> IndexOf(keys, gs[a]).value < IndexOf(keys, gs[b]).value
  }

  /** The groups come in order of the first appearance of their names. */
  lemma {:induction false} SampleOrderFirstAppearance(keys: seq<Cell>)
    ensures InFirstAppearanceOrder(keys, SampleOrder(keys))
  {
    if |keys| > 0 {
      var n := |keys| - 1;
      var gs := SampleOrder(keys[..n]);
      var all := SampleOrder(keys);
      SampleOrderFirstAppearance(keys[..n]);
      assert all == gs || (all == gs + [keys[n]] && keys[n] !in keys[..n]);
      forall a, b | 0 <= a < b < |all|
        ensures IndexOf(keys, all[a]).value < IndexOf(keys, all[b]).value
      {
        assert all[a] == gs[a];
        IndexOfPrefix(keys, n, gs[a]);
        if b < |gs| {
          assert all[b] == gs[b];
          IndexOfPrefix(keys, n, gs[b]);
          assert InFirstAppearanceOrder(keys[..n], gs);
        } else {
          assert all[b] == keys[n];
          assert IndexOf(keys, keys[n]) == Some(n);
        }
      }
    }
  }

  /** Python's `float(c)` on a present cell: numbers as they are, text through `parse`. */
  function ToFloat(c: Cell, parse: string -> Option<real>): Option<real>
    requires c.Present()
  {
    match c
    case Num(v) => Some(v)
    case Text(s) => parse(s)
  }

  /**
   * `float(ct) - float(rnpCt)` when both CTs are present, the row's CT is not
   * "Undetermined" and both convert; nothing otherwise (lines 83-91).
   */
  function DeltaValue(rnpCt: Cell, ct: Cell, parse: string -> Option<real>): Option<real>
  {
    if rnpCt.Present() && ct.Present() && ct != Undetermined then
      match (ToFloat(ct, parse), ToFloat(rnpCt, parse))
      case (Some(a), Some(b)) => Some(a - b)
      case _ => None
    else None
  }

  /** `quantity / rnp_div_2 * 1_000_000` */
  function CopiesPerMillion(quantity: real, half: real): real
    requires half != 0.0
  {
    quantity / half * 1000000.0
  }

  /** A KREC/TREC row after its Copies/mln write (lines 65-70). */
  function WithCopies(row: seq<Cell>, l: Layout, half: real): seq<Cell>
    requires l.quantity < |row| && l.copies < |row|
    requires row[l.quantity].Num? ==> half != 0.0
  {
    if row[l.quantity].Num? then row[l.copies := Num(CopiesPerMillion(row[l.quantity].n, half))] else row
  }

  /** A KREC/TREC row after its Delta write (lines 82-91). */
  function WithDelta(row: seq<Cell>, l: Layout, rnpCt: Cell, parse: string -> Option<real>): seq<Cell>
    requires l.ct < |row| && l.delta < |row|
  {
    match DeltaValue(rnpCt, row[l.ct], parse)
    case Some(d) => row[l.delta := Num(d)]
    case None => row
  }

  /** Row `r` (if any) has a text Quantity. */
  predicate TextAt(rows: seq<seq<Cell>>, l: Layout, r: Option<nat>) {
    r.Some? && r.value < |rows| && l.quantity < |rows[r.value]| && rows[r.value][l.quantity].Text?
  }

  /** Row `r` (if any) has a numeric Quantity. */
  predicate NumAt(rows: seq<seq<Cell>>, l: Layout, r: Option<nat>) {
    r.Some? && r.value < |rows| && l.quantity < |rows[r.value]| && rows[r.value][l.quantity].Num?
  }

  /**
   * With RNP row `p` and KREC/TREC rows `krec`/`trec`, lines 58-79 divide a
   * text Quantity and raise TypeError.
   */
  predicate CopiesFail(rows: seq<seq<Cell>>, l: Layout, p: nat, krec: Option<nat>, trec: Option<nat>)
    requires p < |rows| && l.quantity < |rows[p]|
  {
    var q := rows[p][l.quantity];
    q.Text? || (q.Num? && (TextAt(rows, l, krec) || TextAt(rows, l, trec)))
  }

  /**
   * The Copies/mln formulas of lines 69 and 78 would divide a numeric KREC or
   * TREC Quantity by an RNP/2 of zero (whether or not the code gets there).
   */
  predicate ZeroHalf(rows: seq<seq<Cell>>, l: Layout, p: nat, krec: Option<nat>, trec: Option<nat>)
    requires p < |rows| && l.quantity < |rows[p]|
  {
    rows[p][l.quantity] == Num(0.0) && (NumAt(rows, l, krec) || NumAt(rows, l, trec))
  }

  /**
   * The code does divide by an RNP/2 of zero: at line 69 on a numeric KREC
   * Quantity, or at line 78 on a numeric TREC Quantity once a text KREC
   * Quantity has not already raised TypeError at line 69.
   */
  predicate ReachesZeroHalf(rows: seq<seq<Cell>>, l: Layout, p: nat, krec: Option<nat>, trec: Option<nat>)
    requires p < |rows| && l.quantity < |rows[p]|
  {
    rows[p][l.quantity] == Num(0.0) && (NumAt(rows, l, krec) || (!TextAt(rows, l, krec) && NumAt(rows, l, trec)))
  }

  /** Group `g` divides a text Quantity and raises TypeError (lines 60, 69, 78). */
  predicate GroupFails(t: Table, l: Layout, g: Cell)
    requires Fits(t, l)
  {
    match FirstOf(t, l, g, Rnp)
    case None => false
    case Some(p) => CopiesFail(t.rows, l, p, FirstOf(t, l, g, Krec), FirstOf(t, l, g, Trec))
  }

  /** Some group raises TypeError. */
  predicate Fails(t: Table, l: Layout)
    requires Fits(t, l)
  {
    exists i :: 0 <= i < |t.rows| && t.rows[i][l.sample].Present() && GroupFails(t, l, t.rows[i][l.sample])
  }

  /** The Copies/mln formulas of group `g` divide by an RNP/2 of zero (lines 69, 78). */
  predicate GroupDividesByZero(t: Table, l: Layout, g: Cell)
    requires Fits(t, l)
  {
    match FirstOf(t, l, g, Rnp)
    case None => false
    case Some(p) => ZeroHalf(t.rows, l, p, FirstOf(t, l, g, Krec), FirstOf(t, l, g, Trec))
  }

  /** The loop body for group `g` executes a division by an RNP/2 of zero. */
  predicate GroupReachesZero(t: Table, l: Layout, g: Cell)
    requires Fits(t, l)
  {
    match FirstOf(t, l, g, Rnp)
    case None => false
    case Some(p) => ReachesZeroHalf(t.rows, l, p, FirstOf(t, l, g, Krec), FirstOf(t, l, g, Trec))
  }

  /** No group's formulas divide by zero: what the derived rows of a successful pass need. */
  predicate NoZeroDivision(t: Table, l: Layout)
    requires Fits(t, l)
  {
    forall i :: 0 <= i < |t.rows| && t.rows[i][l.sample].Present() ==> !GroupDividesByZero(t, l, t.rows[i][l.sample])
  }

  /**
   * The loop over groups never executes a division by zero (numpy would write
   * inf or NaN there, or Python raise ZeroDivisionError): every group it
   * reaches, that is every group after which no earlier group raised
   * TypeError, divides by a nonzero RNP/2.
   */
  predicate DivisionsDefined(t: Table, l: Layout)
    requires Fits(t, l)
  {
    var gs := SampleOrder(Column(t, l.sample));
    forall k :: 0 <= k < |gs| && (forall j :: 0 <= j < k ==> !GroupFails(t, l, gs[j])) ==> !GroupReachesZero(t, l, gs[k])
  }

  predicate DivisionsDefinedIn(t: Table)
    requires t.WellFormed()
  {
    match ResolveLayout(t.labels)
    case None => true
    case Some(l) => DivisionsDefined(t, l)
  }

  /** A group that raises nothing and executes no zero division has formulas that divide by nonzero numbers only. */
  lemma SucceedsNoZero(rows: seq<seq<Cell>>, l: Layout, p: nat, krec: Option<nat>, trec: Option<nat>)
    requires p < |rows| && l.quantity < |rows[p]|
    requires !CopiesFail(rows, l, p, krec, trec) && !ReachesZeroHalf(rows, l, p, krec, trec)
    ensures !ZeroHalf(rows, l, p, krec, trec)
  {
  }

  /** When no group raises, every group is reached, so no group's formulas divide by zero. */
  lemma DefinedWhenSucceeds(t: Table, l: Layout)
    requires Fits(t, l) && DivisionsDefined(t, l) && !Fails(t, l)
    ensures NoZeroDivision(t, l)
  {
    var keys := Column(t, l.sample);
    var gs := SampleOrder(keys);
    forall i | 0 <= i < |t.rows| && t.rows[i][l.sample].Present()
      ensures !GroupDividesByZero(t, l, t.rows[i][l.sample])
    {
      var g := t.rows[i][l.sample];
      assert keys[i] == g;
      var k :| 0 <= k < |gs| && gs[k] == g;
      forall j | 0 <= j < k ensures !GroupFails(t, l, gs[j]) {
        var m :| 0 <= m < |keys| && keys[m] == gs[j];
        assert t.rows[m][l.sample] == gs[j];
      }
      assert !GroupFails(t, l, g) && !GroupReachesZero(t, l, g);
      match FirstOf(t, l, g, Rnp)
      case None =>
      case Some(p) => SucceedsNoZero(t.rows, l, p, FirstOf(t, l, g, Krec), FirstOf(t, l, g, Trec));
    }
  }

  /** Row `i` is the first row with `target` of its (present) sample. */
  predicate IsFirst(t: Table, l: Layout, i: nat, target: Cell)
    requires Fits(t, l) && i < |t.rows|
  {
    t.rows[i][l.sample].Present() && FirstOf(t, l, t.rows[i][l.sample], target) == Some(i)
  }

  /**
   * A row of a group whose RNP row is `rnpRow`: the RNP row itself gets RNP/2,
   * the group's first KREC and TREC rows (`isTarget`) get Copies/mln and Delta,
   * and any other row stays as it is.
   */
  function GroupRow(row: seq<Cell>, rnpRow: seq<Cell>, l: Layout, isRnp: bool, isTarget: bool,
                    parse: string -> Option<real>): seq<Cell>
    requires Inside(l, |row|) && Inside(l, |rnpRow|)
    requires isTarget && rnpRow[l.quantity].Num? && row[l.quantity].Num? ==> rnpRow[l.quantity].n != 0.0
  {
    var q := rnpRow[l.quantity];
    if isRnp then
      if q.Num? then row[l.half := Num(q.n / 2.0)] else row
    else if isTarget then
      var copied := if q.Num? then WithCopies(row, l, q.n / 2.0) else row;
      WithDelta(copied, l, rnpRow[l.ct], parse)
    else row
  }

  /** Row `i` once every group has been processed. */
  function DerivedRow(t: Table, l: Layout, parse: string -> Option<real>, i: nat): (row: seq<Cell>)
    requires Fits(t, l) && i < |t.rows|
    requires t.rows[i][l.sample].Present() ==> !GroupDividesByZero(t, l, t.rows[i][l.sample])
    ensures |row| == |t.labels|
  {
    var row := t.rows[i];
    var g := row[l.sample];
    if g.Empty? then row
    else match FirstOf(t, l, g, Rnp)
      case None => row
      case Some(p) =>
        GroupRow(row, t.rows[p], l, i == p, FirstOf(t, l, g, Krec) == Some(i) || FirstOf(t, l, g, Trec) == Some(i), parse)
  }

  function DerivedRows(t: Table, l: Layout, parse: string -> Option<real>): (rows: seq<seq<Cell>>)
    requires Fits(t, l) && NoZeroDivision(t, l)
    ensures |rows| == |t.rows|
  {
    seq(|t.rows|, i requires 0 <= i < |t.rows| => DerivedRow(t, l, parse, i))
  }

  /** Some present sample name. */
  predicate AnySample(t: Table, sc: nat)
    requires t.WellFormed() && sc < |t.labels|
  {
    exists i :: 0 <= i < |t.rows| && t.rows[i][sc].Present()
  }

  /** Some grouped row is an RNP row. */
  predicate AnyRnpRow(t: Table, sc: nat, tc: nat)
    requires t.WellFormed() && sc < |t.labels| && tc < |t.labels|
  {
    exists i :: 0 <= i < |t.rows| && t.rows[i][sc].Present() && t.rows[i][tc] == Rnp
  }

  /**
   * Lines 45-103 as a value: the KeyError raised by the first lookup of a
   * missing column, the TypeError of a text Quantity, or the filled frame.
   */
  function Transformed(t: Table, parse: string -> Option<real>): (r: Result<Table>)
    requires t.WellFormed() && DivisionsDefinedIn(t)
    requires forall d :: d in Frame.DerivedLabels ==> d in t.labels
    ensures r.Ok? ==> SampleName in t.labels && r.value.labels == t.labels && r.value.WellFormed()
    ensures r.Ok? ==> |r.value.rows| == |t.rows|
  {
    match IndexOf(t.labels, SampleName)
    case None => Err(MissingColumn("Sample Name"))
    case Some(sc) =>
      if !AnySample(t, sc) then Ok(t)
      else match IndexOf(t.labels, TargetName)
        case None => Err(MissingColumn("Target Name"))
        case Some(tc) =>
          if !AnyRnpRow(t, sc, tc) then Ok(t)
          else if Quantity !in t.labels then Err(MissingColumn("Quantity"))
          else if CycleThreshold !in t.labels then Err(MissingColumn("CT"))
          else
            var l := ResolveLayout(t.labels).value;
            if Fails(t, l) then Err(NonNumericQuantity)
            else
              DefinedWhenSucceeds(t, l);
              Ok(Table(t.labels, DerivedRows(t, l, parse)))
  }

  /** Every position of `l` lies inside a row of `width` cells. */
  predicate Inside(l: Layout, width: nat) {
    l.sample < width && l.target < width && l.quantity < width && l.ct < width &&
    l.half < width && l.copies < width && l.delta < width
  }

  /** Every row of `rows` holds every position of `l`. */
  predicate Spans(rows: seq<seq<Cell>>, l: Layout) {
    forall i :: 0 <= i < |rows| ==> Inside(l, |rows[i]|)
  }

  /** `rows` with the Copies/mln write of lines 64-70 (or 73-79) applied at row `r`, if any. */
  function CopiesAt(rows: seq<seq<Cell>>, l: Layout, r: Option<nat>, half: real): (u: seq<seq<Cell>>)
    requires Spans(rows, l) && (r.Some? ==> r.value < |rows|)
    requires r.Some? && rows[r.value][l.quantity].Num? ==> half != 0.0
    ensures |u| == |rows| && Spans(u, l)
  {
    if r.Some? then rows[r.value := WithCopies(rows[r.value], l, half)] else rows
  }

  /** `rows` with the Delta write of lines 82-91 (or 94-103) applied at row `r`, if any. */
  function DeltaAt(rows: seq<seq<Cell>>, l: Layout, r: Option<nat>, rnpCt: Cell, parse: string -> Option<real>): (u: seq<seq<Cell>>)
    requires Spans(rows, l) && (r.Some? ==> r.value < |rows|)
    ensures |u| == |rows| && Spans(u, l)
  {
    if r.Some? then rows[r.value := WithDelta(rows[r.value], l, rnpCt, parse)] else rows
  }

  /** Lines 58-79: RNP/2 on the RNP row `p`, then Copies/mln on the KREC and TREC rows, when `p` has a number. */
  function HalfAndCopies(rows: seq<seq<Cell>>, l: Layout, p: nat, krec: Option<nat>, trec: Option<nat>): (u: seq<seq<Cell>>)
    requires Spans(rows, l) && p < |rows|
    requires krec.Some? ==> krec.value < |rows| && krec.value != p
    requires trec.Some? ==> trec.value < |rows| && trec.value != p && krec != trec
    requires !ZeroHalf(rows, l, p, krec, trec)
    ensures |u| == |rows| && Spans(u, l)
  {
    var q := rows[p][l.quantity];
    if q.Num? then
      var half := q.n / 2.0;
      CopiesAt(CopiesAt(rows[p := rows[p][l.half := Num(half)]], l, krec, half), l, trec, half)
    else rows
  }

  /** Lines 58-103 once the group's RNP row `p` and its KREC and TREC rows are known. */
  function RnpUpdate(rows: seq<seq<Cell>>, l: Layout, p: nat, krec: Option<nat>, trec: Option<nat>,
                     parse: string -> Option<real>): (u: seq<seq<Cell>>)
    requires Spans(rows, l) && p < |rows|
    requires krec.Some? ==> krec.value < |rows| && krec.value != p
    requires trec.Some? ==> trec.value < |rows| && trec.value != p && krec != trec
    requires !ZeroHalf(rows, l, p, krec, trec)
    ensures |u| == |rows| && Spans(u, l)
  {
    var copied := HalfAndCopies(rows, l, p, krec, trec);
    DeltaAt(DeltaAt(copied, l, krec, rows[p][l.ct], parse), l, trec, rows[p][l.ct], parse)
  }

  /** The rows of group `g` as one pass of the loop body leaves them, when it raises nothing. */
  function GroupUpdate(rows: seq<seq<Cell>>, snap: Table, l: Layout, g: Cell, parse: string -> Option<real>): (u: seq<seq<Cell>>)
    requires Fits(snap, l) && !GroupDividesByZero(snap, l, g)
    requires |rows| == |snap.rows| && Spans(rows, l)
    requires forall i :: 0 <= i < |snap.rows| && snap.rows[i][l.sample] == g ==> rows[i] == snap.rows[i]
    ensures |u| == |rows| && Spans(u, l)
  {
    match FirstOf(snap, l, g, Rnp)
    case None => rows
    case Some(p) =>
      var krec := FirstOf(snap, l, g, Krec);
      var trec := FirstOf(snap, l, g, Trec);
      RnpUpdate(rows, l, p, krec, trec, parse)
  }

  /** Row `i` after `RnpUpdate`: RNP/2 on the RNP row, Copies/mln then Delta on the KREC and TREC rows, nothing elsewhere. */
  lemma RnpUpdateRow(rows: seq<seq<Cell>>, l: Layout, p: nat, krec: Option<nat>, trec: Option<nat>,
                     parse: string -> Option<real>, i: nat)
    requires Spans(rows, l) && p < |rows| && i < |rows|
    requires krec.Some? ==> krec.value < |rows| && krec.value != p
    requires trec.Some? ==> trec.value < |rows| && trec.value != p && krec != trec
    requires !ZeroHalf(rows, l, p, krec, trec)
    ensures RnpUpdate(rows, l, p, krec, trec, parse)[i] ==
              GroupRow(rows[i], rows[p], l, i == p, krec == Some(i) || trec == Some(i), parse)
  {
  }

  /** One pass of the loop body computes `DerivedRow` on the rows of its group. */
  lemma GroupUpdateMember(rows: seq<seq<Cell>>, snap: Table, l: Layout, g: Cell, parse: string -> Option<real>, i: nat)
    requires Fits(snap, l) && !GroupDividesByZero(snap, l, g) && g.Present()
    requires |rows| == |snap.rows| && Spans(rows, l) && i < |rows| && snap.rows[i][l.sample] == g
    requires forall j :: 0 <= j < |snap.rows| && snap.rows[j][l.sample] == g ==> rows[j] == snap.rows[j]
    ensures GroupUpdate(rows, snap, l, g, parse)[i] == DerivedRow(snap, l, parse, i)
  {
    var rnp := FirstOf(snap, l, g, Rnp);
    if rnp.Some? {
      var p := rnp.value;
      var krec := FirstOf(snap, l, g, Krec);
      var trec := FirstOf(snap, l, g, Trec);
      assert rows[p] == snap.rows[p] && rows[i] == snap.rows[i];
      assert krec.Some? ==> rows[krec.value] == snap.rows[krec.value];
      assert trec.Some? ==> rows[trec.value] == snap.rows[trec.value];
      CopiesFailLocal(rows, snap.rows, l, p, krec, trec);
      RnpUpdateRow(rows, l, p, krec, trec, parse, i);
    }
  }

  /** One pass of the loop body leaves the rows of other groups alone. */
  lemma GroupUpdateOther(rows: seq<seq<Cell>>, snap: Table, l: Layout, g: Cell, parse: string -> Option<real>, i: nat)
    requires Fits(snap, l) && !GroupDividesByZero(snap, l, g)
    requires |rows| == |snap.rows| && Spans(rows, l) && i < |rows| && snap.rows[i][l.sample] != g
    requires forall j :: 0 <= j < |snap.rows| && snap.rows[j][l.sample] == g ==> rows[j] == snap.rows[j]
    ensures GroupUpdate(rows, snap, l, g, parse)[i] == rows[i]
  {
    match FirstOf(snap, l, g, Rnp)
    case None =>
    case Some(p) =>
      var krec := FirstOf(snap, l, g, Krec);
      var trec := FirstOf(snap, l, g, Trec);
      assert i != p && krec != Some(i) && trec != Some(i);
      RnpUpdateRow(rows, l, p, krec, trec, parse, i);
  }

  /** Lines 64-70 (or 73-79): the Copies/mln write on a KREC or TREC row, if the group has one. */
  method WriteCopies(df: Frame.DataFrame, l: Layout, row: Option<nat>, half: real) returns (ok: bool)
    requires df.Valid() && Places(df.labels, l)
    requires row.Some? ==> row.value < |df.rows|
    requires row.Some? && df.rows[row.value][l.quantity].Num? ==> half != 0.0
    modifies df
    ensures df.Valid() && df.labels == old(df.labels)
    ensures ok <==> !(row.Some? && old(df.rows)[row.value][l.quantity].Text?)
    ensures ok ==> df.rows == CopiesAt(old(df.rows), l, row, half)
  {
    ok := true;
    if row.Some? {
      var idx := row.value;
      var quantity := df.rows[idx][l.quantity];
      if quantity.Present() {
        if quantity.Text? {
          // a text quantity divided by a float raises TypeError
          return false;
        }
        df.SetCell(idx, l.copies, Num(CopiesPerMillion(quantity.n, half)));
      }
    }
  }

  /** Lines 58-79 on the RNP row `p` and the group's first KREC and TREC rows. */
  method WriteHalfAndCopies(df: Frame.DataFrame, l: Layout, p: nat, krec: Option<nat>, trec: Option<nat>) returns (ok: bool)
    requires df.Valid() && Places(df.labels, l) && p < |df.rows|
    requires krec.Some? ==> krec.value < |df.rows| && krec.value != p
    requires trec.Some? ==> trec.value < |df.rows| && trec.value != p && krec != trec
    requires !ReachesZeroHalf(df.rows, l, p, krec, trec)
    modifies df
    ensures df.Valid() && df.labels == old(df.labels)
    ensures ok == !CopiesFail(old(df.rows), l, p, krec, trec)
    ensures ok ==> !ZeroHalf(old(df.rows), l, p, krec, trec) && df.rows == HalfAndCopies(old(df.rows), l, p, krec, trec)
  {
    var quantity := df.rows[p][l.quantity];
    if quantity.Present() {
      if quantity.Text? {
        // a text quantity divided by 2 raises TypeError
        return false;
      }
      var half := quantity.n / 2.0;
      df.SetCell(p, l.half, Num(half));
      ok := WriteCopies(df, l, krec, half);
      if !ok {
        return;
      }
      ok := WriteCopies(df, l, trec, half);
      return;
    }
    ok := true;
  }

  /** Lines 82-91 (or 94-103): the Delta write on a KREC or TREC row, if the group has one. */
  method WriteDelta(df: Frame.DataFrame, l: Layout, row: Option<nat>, rnpCt: Cell, parse: string -> Option<real>)
    requires df.Valid() && Places(df.labels, l)
    requires row.Some? ==> row.value < |df.rows|
    modifies df
    ensures df.Valid() && df.labels == old(df.labels)
    ensures df.rows == DeltaAt(old(df.rows), l, row, rnpCt, parse)
  {
    if row.Some? && rnpCt.Present() {
      var idx := row.value;
      var ct := df.rows[idx][l.ct];
      if ct.Present() && ct != Undetermined {
        // try: float(ct) - float(rnp_ct), except (ValueError, TypeError): pass
        var a := ToFloat(ct, parse);
        var b := ToFloat(rnpCt, parse);
        if a.Some? && b.Some? {
          df.SetCell(idx, l.delta, Num(a.value - b.value));
        }
      }
    }
  }

  /** Lines 58-103 on the RNP row `p` and the group's first KREC and TREC rows. */
  method UpdateFromRnp(df: Frame.DataFrame, l: Layout, p: nat, krec: Option<nat>, trec: Option<nat>,
                       parse: string -> Option<real>) returns (ok: bool)
    requires df.Valid() && Places(df.labels, l) && p < |df.rows|
    requires krec.Some? ==> krec.value < |df.rows| && krec.value != p
    requires trec.Some? ==> trec.value < |df.rows| && trec.value != p && krec != trec
    requires !ReachesZeroHalf(df.rows, l, p, krec, trec)
    modifies df
    ensures df.Valid() && df.labels == old(df.labels)
    ensures ok == !CopiesFail(old(df.rows), l, p, krec, trec)
    ensures ok ==> !ZeroHalf(old(df.rows), l, p, krec, trec) && df.rows == RnpUpdate(old(df.rows), l, p, krec, trec, parse)
  {
    var rnpCt := df.rows[p][l.ct];
    ok := WriteHalfAndCopies(df, l, p, krec, trec);
    if !ok {
      return;
    }
    WriteDelta(df, l, krec, rnpCt, parse);
    WriteDelta(df, l, trec, rnpCt, parse);
  }

  /** Row `r` (if any) has the same Quantity cell, or lacks one, in `rows` and in `rows'`. */
  predicate SameQuantity(rows: seq<seq<Cell>>, rows': seq<seq<Cell>>, l: Layout, r: Option<nat>) {
    r.Some? && r.value < |rows| && r.value < |rows'| ==>
      (l.quantity < |rows[r.value]| <==> l.quantity < |rows'[r.value]|) &&
      (l.quantity < |rows[r.value]| ==> rows[r.value][l.quantity] == rows'[r.value][l.quantity])
  }

  /** `CopiesFail`, `ZeroHalf` and `ReachesZeroHalf` look only at the Quantity cells of the rows `p`, `krec` and `trec`. */
  lemma CopiesFailLocal(rows: seq<seq<Cell>>, rows': seq<seq<Cell>>, l: Layout, p: nat, krec: Option<nat>, trec: Option<nat>)
    requires p < |rows| == |rows'| && l.quantity < |rows[p]| && l.quantity < |rows'[p]|
    requires rows[p][l.quantity] == rows'[p][l.quantity]
    requires SameQuantity(rows, rows', l, krec) && SameQuantity(rows, rows', l, trec)
    ensures CopiesFail(rows, l, p, krec, trec) == CopiesFail(rows', l, p, krec, trec)
    ensures ZeroHalf(rows, l, p, krec, trec) == ZeroHalf(rows', l, p, krec, trec)
    ensures ReachesZeroHalf(rows, l, p, krec, trec) == ReachesZeroHalf(rows', l, p, krec, trec)
  {
  }

  /** The body of the loop over groups (lines 48-103) for sample `g`. */
  method ProcessGroup(df: Frame.DataFrame, snap: Table, l: Layout, g: Cell, parse: string -> Option<real>) returns (ok: bool)
    requires df.Valid() && Fits(snap, l) && !GroupReachesZero(snap, l, g)
    requires df.labels == snap.labels && |df.rows| == |snap.rows|
    requires forall i :: 0 <= i < |snap.rows| && snap.rows[i][l.sample] == g ==> df.rows[i] == snap.rows[i]
    modifies df
    ensures df.Valid() && df.labels == snap.labels
    ensures ok == !GroupFails(snap, l, g)
    ensures ok ==> !GroupDividesByZero(snap, l, g) && df.rows == GroupUpdate(old(df.rows), snap, l, g, parse)
  {
    var rnp := FirstOf(snap, l, g, Rnp);
    if rnp.None? {
      return true;
    }
    var p := rnp.value;
    var krec := FirstOf(snap, l, g, Krec);
    var trec := FirstOf(snap, l, g, Trec);
    CopiesFailLocal(df.rows, snap.rows, l, p, krec, trec);
    ok := UpdateFromRnp(df, l, p, krec, trec, parse);
  }

  /** No group in `done` has formulas that divide by zero. */
  predicate DoneDefined(snap: Table, l: Layout, done: seq<Cell>)
    requires Fits(snap, l)
  {
    forall k :: 0 <= k < |done| ==> !GroupDividesByZero(snap, l, done[k])
  }

  /** The rows of the groups in `done` hold their derived values and the others their original ones. */
  predicate Processed(rows: seq<seq<Cell>>, snap: Table, l: Layout, parse: string -> Option<real>, done: seq<Cell>)
    requires Fits(snap, l) && DoneDefined(snap, l, done)
  {
    |rows| == |snap.rows| &&
    forall i :: 0 <= i < |snap.rows| ==>
      rows[i] == if snap.rows[i][l.sample] in done then DerivedRow(snap, l, parse, i) else snap.rows[i]
  }

  /** Before group `g` is processed its rows are the original ones. */
  lemma ProcessedUntouched(rows: seq<seq<Cell>>, snap: Table, l: Layout, parse: string -> Option<real>, done: seq<Cell>, g: Cell)
    requires Fits(snap, l) && DoneDefined(snap, l, done) && g !in done
    requires Processed(rows, snap, l, parse, done)
    ensures Spans(rows, l)
    ensures forall i :: 0 <= i < |snap.rows| && snap.rows[i][l.sample] == g ==> rows[i] == snap.rows[i]
  {
    forall i | 0 <= i < |rows| ensures Inside(l, |rows[i]|) {
      assert |rows[i]| == |snap.labels|;
    }
  }

  /** Processing one more group `g` extends `Processed` by `g`. */
  lemma ProcessedStep(rows: seq<seq<Cell>>, snap: Table, l: Layout, parse: string -> Option<real>, done: seq<Cell>, g: Cell)
    requires Fits(snap, l) && DoneDefined(snap, l, done) && g.Present() && g !in done
    requires !GroupDividesByZero(snap, l, g) && Processed(rows, snap, l, parse, done)
    ensures Spans(rows, l)
    ensures forall i :: 0 <= i < |snap.rows| && snap.rows[i][l.sample] == g ==> rows[i] == snap.rows[i]
    ensures DoneDefined(snap, l, done + [g])
    ensures Processed(GroupUpdate(rows, snap, l, g, parse), snap, l, parse, done + [g])
  {
    ProcessedUntouched(rows, snap, l, parse, done, g);
    var u := GroupUpdate(rows, snap, l, g, parse);
    assert DoneDefined(snap, l, done + [g]) by {
      forall k | 0 <= k < |done + [g]| ensures !GroupDividesByZero(snap, l, (done + [g])[k]) {
        if k < |done| {
          assert (done + [g])[k] == done[k];
        }
      }
    }
    forall i | 0 <= i < |snap.rows|
      ensures u[i] == if snap.rows[i][l.sample] in done + [g] then DerivedRow(snap, l, parse, i) else snap.rows[i]
    {
      if snap.rows[i][l.sample] == g {
        GroupUpdateMember(rows, snap, l, g, parse, i);
      } else {
        GroupUpdateOther(rows, snap, l, g, parse, i);
      }
    }
  }

  /** A present sample name whose group raises makes the whole pass raise. */
  lemma FailsAt(t: Table, l: Layout, g: Cell)
    requires Fits(t, l) && g.Present() && g in Column(t, l.sample) && GroupFails(t, l, g)
    ensures Fails(t, l)
  {
    var i :| 0 <= i < |t.rows| && Column(t, l.sample)[i] == g;
    assert t.rows[i][l.sample] == g;
  }

  /** Once every present sample name has been processed, no group raised and every row is derived. */
  lemma ProcessedAll(rows: seq<seq<Cell>>, snap: Table, l: Layout, parse: string -> Option<real>, done: seq<Cell>)
    requires Fits(snap, l) && DoneDefined(snap, l, done) && Processed(rows, snap, l, parse, done)
    requires forall k :: 0 <= k < |done| ==> !GroupFails(snap, l, done[k])
    requires forall i :: 0 <= i < |snap.rows| && snap.rows[i][l.sample].Present() ==> snap.rows[i][l.sample] in done
    ensures !Fails(snap, l) && NoZeroDivision(snap, l) && rows == DerivedRows(snap, l, parse)
  {
    forall i | 0 <= i < |snap.rows| ensures rows[i] == DerivedRows(snap, l, parse)[i] {
    }
  }

  /** One iteration of the loop over groups: group `g` is processed, or raises. */
  method ProcessNext(df: Frame.DataFrame, snap: Table, l: Layout, parse: string -> Option<real>, done: seq<Cell>, g: Cell)
    returns (ok: bool)
    requires df.Valid() && df.labels == snap.labels && Fits(snap, l) && DoneDefined(snap, l, done)
    requires g.Present() && g !in done && !GroupReachesZero(snap, l, g)
    requires Processed(df.rows, snap, l, parse, done)
    modifies df
    ensures df.Valid() && df.labels == snap.labels
    ensures ok == !GroupFails(snap, l, g)
    ensures ok ==> DoneDefined(snap, l, done + [g]) && Processed(df.rows, snap, l, parse, done + [g])
  {
    ProcessedUntouched(df.rows, snap, l, parse, done, g);
    ghost var rows := df.rows;
    ok := ProcessGroup(df, snap, l, g, parse);
    if ok {
      ProcessedStep(rows, snap, l, parse, done, g);
    }
  }

  lemma PrefixExtend(s: seq<Cell>, i: nat)
    requires i < |s|
    ensures s[..i + 1] == s[..i] + [s[i]]
  {
  }

  /**
   * The loop over `df.groupby("Sample Name", sort=False)` (lines 45-103); it
   * stops at the first group that raises TypeError.
   */
  method ProcessSamples(df: Frame.DataFrame, l: Layout, parse: string -> Option<real>) returns (ok: bool)
    requires df.Valid() && Fits(df.Value(), l) && DivisionsDefined(df.Value(), l)
    modifies df
    ensures df.Valid() && df.labels == old(df.labels)
    ensures ok == !Fails(old(df.Value()), l)
    ensures ok ==> NoZeroDivision(old(df.Value()), l) && df.rows == DerivedRows(old(df.Value()), l, parse)
  {
    var snap := df.Value();
    var keys := Column(snap, l.sample);
    var groups := SampleOrder(keys);
    var gi := 0;
    while gi < |groups|
      invariant 0 <= gi <= |groups|
      invariant df.Valid() && df.labels == snap.labels
      invariant DoneDefined(snap, l, groups[..gi]) && Processed(df.rows, snap, l, parse, groups[..gi])
      invariant forall k :: 0 <= k < gi ==> !GroupFails(snap, l, groups[k])
    {
      var g := groups[gi];
      assert g !in groups[..gi];
      assert !GroupReachesZero(snap, l, g);
      ok := ProcessNext(df, snap, l, parse, groups[..gi], g);
      if !ok {
        FailsAt(snap, l, g);
        return;
      }
      PrefixExtend(groups, gi);
      gi := gi + 1;
    }
    forall i | 0 <= i < |snap.rows| && snap.rows[i][l.sample].Present()
      ensures snap.rows[i][l.sample] in groups[..gi]
    {
      assert keys[i] == snap.rows[i][l.sample];
      assert groups[..gi] == groups;
    }
    ProcessedAll(df.rows, snap, l, parse, groups[..gi]);
    ok := true;
  }

  /**
   * Lines 43-103: the grouping pass over the reshaped frame, failing where
   * pandas raises.
   */
  method DeriveMetrics(df: Frame.DataFrame, parse: string -> Option<real>) returns (err: Option<Error>)
    requires df.Valid() && DivisionsDefinedIn(df.Value())
    requires forall d :: d in Frame.DerivedLabels ==> d in df.labels
    modifies df
    ensures df.Valid() && df.labels == old(df.labels)
    ensures match Transformed(old(df.Value()), parse)
            case Err(e) => err == Some(e)
            case Ok(u) => err.None? && df.Value() == u
  {
    var t := df.Value();
    // groupby("Sample Name") raises KeyError on a missing column
    var sc := IndexOf(df.labels, SampleName);
    if sc.None? {
      return Some(MissingColumn("Sample Name"));
    }
    var groups := SampleOrder(Column(t, sc.value));
    if |groups| == 0 {
      assert !AnySample(t, sc.value) by {
        forall i | 0 <= i < |t.rows| ensures !t.rows[i][sc.value].Present() {
          assert Column(t, sc.value)[i] == t.rows[i][sc.value];
        }
      }
      return None;
    }
    assert AnySample(t, sc.value) by {
      var i :| 0 <= i < |t.rows| && Column(t, sc.value)[i] == groups[0];
    }
    // group["Target Name"] in the first group
    var tc := IndexOf(df.labels, TargetName);
    if tc.None? {
      return Some(MissingColumn("Target Name"));
    }
    // df.loc[rnp_idx, "Quantity"] and df.loc[rnp_idx, "CT"] in the first group with an RNP row
    if !AnyRnpRow(t, sc.value, tc.value) {
      return None;
    }
    if Quantity !in df.labels {
      return Some(MissingColumn("Quantity"));
    }
    if CycleThreshold !in df.labels {
      return Some(MissingColumn("CT"));
    }
    var l := ResolveLayout(df.labels).value;
    var ok := ProcessSamples(df, l, parse);
    if !ok {
      return Some(NonNumericQuantity);
    }
    return None;
  }
}
