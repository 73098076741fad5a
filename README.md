# KREC/TREC results processor — a verified model

`excel_processor.py` turns a raw qPCR results export into a "Results"
workbook. It works in these steps:

1. It locates the real header row: the first row holding "Well Position".
2. It re-reads the grid below that row.
3. It drops four instrument columns.
4. It appends the blank columns "RNP/2", "Copies/mln" and "Delta".
5. For every sample, it fills those three columns from the sample's first
   RNP, KREC and TREC rows.
6. It writes the sheet beside the input, as `<stem>_processed<suffix>`.
7. It borders the last row of every run of equal sample names and sets
   every column width to 15.
8. It fills Copies/mln and Delta cells yellow when they cross the thresholds
   loaded from `parameters.xlsx`, or the built-in defaults.

This project models that pipeline in Dafny, one module per stage:

- `Cells`: cells, tables, errors and labels.
- `HeaderLocator`: finding the header row.
- `Frame`: the `DataFrame` class, with re-basing and reshaping.
- `Metrics`: the grouping pass. The `DataFrame` is updated cell by cell,
  exactly as the source's `df.loc[...] = ...` writes do, and each method is
  proved against a specification function. `MetricsFacts` states, cell by
  cell, what that function writes.
- `OutputPath`: the default output path.
- `Workbook`: the `Worksheet` class.
- `SampleBorders`: borders and column widths.
- `Parameters`: loading the thresholds.
- `Highlight`: the conditional fills.
- `Processor`: `process_excel_file` end to end.

Cells are blank (pandas NaN), numbers (`real`) or text. A Python exception
that escapes `process_excel_file` is an `Err` result. Python's `float()` on a
string is a parameter, `parse: string -> Option<real>`. The border and fill
styles are sets of sheet positions (row, column), both counted from 1.

The docstring of `_apply_sample_borders` says that a border falls every four
rows. The code instead borders wherever the sample name changes, and the
model follows the code (`SampleBorders.GroupedBorders`,
`SampleBorders.SplitSampleBordered`).

One might expect a parameters file lacking a key to fall back to that key's
default. The code does not do this: a file that was
read replaces the defaults as a whole, and a missing threshold raises
`KeyError` once a row needs it. The model follows the code
(`Parameters.NoPerKeyDefault`, `Highlight.MissingKeyRaises`).

## Model

| member | source | states |
|---|---|---|
| Cells.IndexOf | excel_processor.py:228-232 | `header_row.index(x)` and pandas label lookup: the first position holding `x`, None exactly when `x` is absent |
| HeaderLocator.HeaderIndex | excel_processor.py:21-29 | the header row is the least row index holding a "Well Position" cell; None exactly when no row holds one |
| HeaderLocator.RowHasHeaderCell | excel_processor.py:24 | the row scan answers true exactly when a present cell equals "Well Position" |
| HeaderLocator.FindHeaderRow | excel_processor.py:21-26 | the loop with `break` returns the least such row, and None when there is none |
| Frame.Rebase | excel_processor.py:32 | the labels are the header row's cells; the data rows are exactly the rows below it, in order |
| Frame.KeptColumns | excel_processor.py:35-36 | the surviving column positions are increasing, carry no dropped label, and include every column whose label is not dropped |
| Frame.Dropped | excel_processor.py:35-36 | dropping keeps every row and leaves none of the dropped labels; an absent label is no error |
| Frame.WithEmptyColumn | excel_processor.py:39-41 | `df[name] = None` blanks an existing column in place, or appends one blank column; no other cell changes |
| Frame.WithEmptyColumnKeepsIndex | excel_processor.py:39-41 | a blanked or appended column does not move the first position of any other label |
| Frame.Reshaped | excel_processor.py:35-41 | the reshaped frame is rectangular and has as many rows as the re-read frame |
| Frame.AssignedLabels | excel_processor.py:39-41 | `df[name] = None` changes the labels only by appending `name` when it is absent |
| Frame.DerivedAssigned | excel_processor.py:39-41 | the three assignments append each absent derived label after the existing labels, in the order RNP/2, Copies/mln, Delta |
| Frame.NoneAbsent | excel_processor.py:39-41 | a frame holding none of RNP/2, Copies/mln and Delta gets exactly those three appended, in that order |
| Frame.ReshapedAppendsInOrder | excel_processor.py:35-41 | after reshaping, the labels are the kept labels followed by RNP/2, Copies/mln and Delta in that order, each skipped only when the kept labels already hold it |
| Frame.ReshapedExtendsDropped | excel_processor.py:35-41 | the reshaped labels start with the kept labels, in their order |
| Frame.WithEmptyColumnAddsOnly | excel_processor.py:39-41 | assigning `name` brings in no label but `name` |
| Frame.ReshapedDropsUnwanted | excel_processor.py:35-41 | Target Color, CQCONF, EXPFAIL and NOAMP are absent after reshaping |
| Frame.ReshapedBlanksDerived | excel_processor.py:39-41 | RNP/2, Copies/mln and Delta exist after reshaping, and every one of their cells is blank |
| Frame.WithEmptyColumnKeepsBlank | excel_processor.py:39-41 | a later assignment keeps an earlier blank column blank |
| Frame.WithEmptyColumnKeepsCell | excel_processor.py:39-41 | a cell outside the assigned column keeps its label and its value |
| Frame.ReshapedKeepsColumns | excel_processor.py:32-41 | the kept columns keep their order; their cells are kept too, except in a kept column labelled RNP/2, Copies/mln or Delta, which is blanked; the row count is unchanged |
| Frame.DataFrame.Read | excel_processor.py:32 | the frame holds the re-based table |
| Frame.DataFrame.DropColumns | excel_processor.py:36 | the frame's new value is the dropped table |
| Frame.DataFrame.AssignEmpty | excel_processor.py:39-41 | the frame's new value is the table with `name` blank |
| Frame.DataFrame.SetCell | excel_processor.py:61 | `df.loc[i, c] = v` changes exactly one cell |
| Metrics.ResolveLayout | excel_processor.py:45-56 | the column lookups succeed exactly when all seven labels are present, and each resolves to a column carrying its label |
| Metrics.FirstFrom | excel_processor.py:52-54 | a row found at or after `from` belongs to the sample and has the target |
| Metrics.FirstFromLeast | excel_processor.py:52-54 | the row found is the first such row; None exactly when there is none |
| Metrics.FirstOf | excel_processor.py:54 | `rnp_rows.index[0]`: the row found belongs to the sample and has the target |
| Metrics.FirstOfLeast | excel_processor.py:54-75 | it is the least such row; None exactly when the group has no such row |
| Metrics.SampleOrder | excel_processor.py:45 | the groups are the distinct present sample names; every present name has a group; blanks have none |
| Metrics.SampleOrderFirstAppearance | excel_processor.py:45 | `groupby(sort=False)` yields the groups in order of first appearance |
| Metrics.ToFloat | excel_processor.py:88-100 | Python's `float()` on a present cell: a number as it is, text through the parser |
| Metrics.DeltaValue | excel_processor.py:83-103 | `float(ct) - float(rnp_ct)` when the RNP CT is present, the row's CT is present and not "Undetermined" and both convert; nothing otherwise (the caught ValueError/TypeError) |
| Metrics.CopiesPerMillion | excel_processor.py:69-78 | `quantity / rnp_div_2 * 1_000_000` |
| Metrics.WithCopies | excel_processor.py:64-79 | a KREC/TREC row gets Copies/mln when its Quantity is a number, and is unchanged when it is blank |
| Metrics.WithDelta | excel_processor.py:81-103 | a KREC/TREC row gets Delta exactly when `DeltaValue` is defined |
| Metrics.CopiesFail | excel_processor.py:58-79 | a group raises TypeError when its RNP Quantity is text (line 60), or is a number and its first KREC or TREC Quantity is text (lines 69, 78) |
| Metrics.ZeroHalf | excel_processor.py:69-78 | the Copies/mln formulas would divide a numeric KREC or TREC Quantity by an RNP/2 of zero |
| Metrics.ReachesZeroHalf | excel_processor.py:64-79 | the code does divide by an RNP/2 of zero: at line 69 on a numeric KREC Quantity, or at line 78 once a text KREC Quantity has not raised first |
| Metrics.GroupFails | excel_processor.py:52-79 | a group with an RNP row raises TypeError as `CopiesFail` says; a group without one never raises |
| Metrics.Fails | excel_processor.py:47-79 | some group of a present sample name raises TypeError |
| Metrics.GroupDividesByZero | excel_processor.py:52-79 | a group's formulas divide by an RNP/2 of zero |
| Metrics.GroupReachesZero | excel_processor.py:52-79 | a group's iteration executes a division by an RNP/2 of zero |
| Metrics.NoZeroDivision | excel_processor.py:47-79 | no group's formulas divide by zero; what the derived rows of a successful pass need |
| Metrics.DivisionsDefined | excel_processor.py:45-79 | every group the loop reaches, up to and including the first group that raises, executes no division by zero |
| Metrics.SucceedsNoZero | excel_processor.py:58-79 | a group that raises nothing and executes no zero division has formulas that divide by nonzero numbers only |
| Metrics.DefinedWhenSucceeds | excel_processor.py:45-79 | when no group raises, the loop reaches every group, so no group's formulas divide by zero |
| Metrics.GroupRow | excel_processor.py:56-103 | a row of a group with an RNP row: the RNP row gets RNP/2 when its Quantity is a number; the first KREC and TREC rows get Copies/mln and then Delta; any other row is unchanged |
| Metrics.DerivedRow | excel_processor.py:47-103 | each row keeps its width after the pass |
| Metrics.DerivedRows | excel_processor.py:47-103 | the pass keeps every row |
| Metrics.AnySample | excel_processor.py:45-47 | some row has a sample name, so the loop body runs and `group["Target Name"]` is looked up |
| Metrics.AnyRnpRow | excel_processor.py:52-56 | some grouped row is an RNP row, so `df.loc[rnp_idx, "Quantity"]` and `"CT"` are looked up |
| Metrics.Transformed | excel_processor.py:45-103 | a successful pass needs a "Sample Name" column and keeps the labels, the row count and the rectangular shape |
| Metrics.CopiesAt | excel_processor.py:67-70 | writing one Copies/mln cell keeps the row count and the shape |
| Metrics.DeltaAt | excel_processor.py:85-91 | writing one Delta cell keeps the row count and the shape |
| Metrics.HalfAndCopies | excel_processor.py:58-79 | writing RNP/2 and both Copies/mln cells keeps the row count and the shape |
| Metrics.RnpUpdate | excel_processor.py:52-103 | updating one group from its RNP row keeps the row count and the shape |
| Metrics.GroupUpdate | excel_processor.py:47-103 | one group's iteration keeps the row count and the shape |
| Metrics.RnpUpdateRow | excel_processor.py:52-103 | each row of one group's update is that row's derived form |
| Metrics.GroupUpdateMember | excel_processor.py:47-103 | a row of the processed group becomes its derived row |
| Metrics.GroupUpdateOther | excel_processor.py:47-103 | a row of any other group is unchanged |
| Metrics.WriteCopies | excel_processor.py:64-79 | writes k/(q/2)·10^6 into the target row's Copies/mln; fails (TypeError) exactly when that row's Quantity is text |
| Metrics.WriteHalfAndCopies | excel_processor.py:58-79 | writes RNP/2 and both Copies/mln cells; fails exactly when a divided Quantity is text |
| Metrics.WriteDelta | excel_processor.py:81-103 | the frame becomes `DeltaAt` of the old rows: Delta is written exactly when `DeltaValue` is defined; never fails |
| Metrics.UpdateFromRnp | excel_processor.py:56-103 | one group's writes after its RNP row is found; fails exactly when the copies step fails |
| Metrics.CopiesFailLocal | excel_processor.py:58-79 | whether a group raises TypeError, and whether it divides by zero, depends only on the Quantity cells of its RNP, KREC and TREC rows |
| Metrics.ProcessGroup | excel_processor.py:47-103 | one loop iteration: fails exactly when the group raises; otherwise the rows become the group's update |
| Metrics.ProcessedUntouched | excel_processor.py:47-103 | before a group is processed, its rows hold their original values |
| Metrics.ProcessedStep | excel_processor.py:47-103 | processing the next group extends the processed prefix by that group |
| Metrics.FailsAt | excel_processor.py:60-78 | one failing group makes the whole pass fail |
| Metrics.ProcessedAll | excel_processor.py:47-103 | once every group is processed, the rows are the derived rows |
| Metrics.ProcessNext | excel_processor.py:47-103 | the loop body keeps the processed invariant, or fails exactly when the group raises |
| Metrics.ProcessSamples | excel_processor.py:45-103 | the group loop fails exactly when some group raises; otherwise the frame holds the derived rows |
| Metrics.DeriveMetrics | excel_processor.py:43-103 | the pass returns the KeyError of the first missing column, or the TypeError of a text Quantity, or leaves the frame with the transformed table |
| MetricsFacts.RnpRowOf | excel_processor.py:52-54 | a row's RNP row belongs to its sample and is an RNP row |
| MetricsFacts.LayoutDistinct | excel_processor.py:39-41 | the seven columns the pass reads or writes are pairwise distinct: the three derived columns differ from each other and from Sample Name, Target Name, Quantity and CT |
| MetricsFacts.HalfCell | excel_processor.py:58-61 | RNP/2 is q/2 on the first RNP row of a group whose RNP Quantity q is a number; otherwise it is unchanged |
| MetricsFacts.CopiesCell | excel_processor.py:64-79 | Copies/mln is k/(q/2)·1 000 000 on the first KREC and the first TREC row when both quantities are numbers; otherwise it is unchanged |
| MetricsFacts.DeltaCell | excel_processor.py:81-103 | Delta is the row's CT minus the RNP CT on the first KREC and TREC rows whenever that difference is defined, whatever the RNP Quantity |
| MetricsFacts.DeltaNeedsBothCts | excel_processor.py:84-96 | a Delta needs both CTs present and the row's CT not "Undetermined" |
| MetricsFacts.DeltaOfNumbers | excel_processor.py:88-100 | two numeric CTs always give a Delta |
| MetricsFacts.OtherColumnsKept | excel_processor.py:47-103 | no column but RNP/2, Copies/mln and Delta is ever written |
| MetricsFacts.UntouchedRows | excel_processor.py:52-103 | rows of groups without an RNP row, later duplicates, other targets and unnamed rows stay unchanged |
| MetricsFacts.DerivedCellsNotText | excel_processor.py:58-103 | the pass writes only numbers: a blank Copies/mln or Delta cell ends blank or a number |
| MetricsFacts.RnpRowGetsHalfOnly | excel_processor.py:58-103 | the RNP row itself never gets Copies/mln or Delta |
| MetricsFacts.TextKrecShieldsZero | excel_processor.py:64-79 | a text KREC Quantity under a numeric RNP Quantity raises TypeError at line 69 and no zero division is reached, even where the TREC formula would divide by zero |
| MetricsFacts.ZeroAfterFailureAdmitted | excel_processor.py:45-79 | once a group raises without having divided by zero, and no earlier group divided by zero, the input is admitted and the pass raises, whatever the later groups hold |
| MetricsFacts.ExampleGroups | excel_processor.py:45-56 | in a three-row example, sample S1's RNP, KREC and TREC rows are found in order |
| MetricsFacts.ExampleDerived | excel_processor.py:58-103 | RNP Quantity 20000 with KREC 100 and TREC 50 gives RNP/2 10000, copies 10000 and 5000, and Deltas 5 and 6 |
| OutputPath.LastDot | excel_processor.py:108 | the last '.' of a name, None exactly when it has none |
| OutputPath.SuffixDot | excel_processor.py:108 | pathlib's suffix dot is neither the first nor the last character |
| OutputPath.Suffix | excel_processor.py:108 | `PurePath.suffix`: from the suffix dot to the end, or empty |
| OutputPath.Stem | excel_processor.py:108 | `PurePath.stem`: the name up to the suffix dot, or the whole name |
| OutputPath.ProcessedPath | excel_processor.py:106-108 | `input_path.parent / f"{stem}_processed{suffix}"` |
| OutputPath.Destination | excel_processor.py:106-108 | the given output path, or the default one when none is given |
| OutputPath.StemSuffix | excel_processor.py:108 | stem followed by suffix is the name; a suffix is empty or one dot with no other dot |
| OutputPath.ProcessedDiffers | excel_processor.py:106-108 | the default output lies in the input's directory, its name is ten characters longer, and it is never the input |
| OutputPath.ProcessedSplit | excel_processor.py:106-108 | the default output keeps the input's suffix and its stem is the input's stem plus "_processed" |
| OutputPath.TrailingDotSplit | excel_processor.py:106-108 | the exception: a name ending in '.' has no suffix, but its output has the suffix "._processed" |
| Workbook.Written | excel_processor.py:110 | the labels are on sheet row 1 and data row i is on sheet row i + 2 |
| Workbook.Worksheet.Write | excel_processor.py:110 | a fresh "Results" sheet holding the frame, as wide as its labels, with no medium bottom border, no fill and no column width set |
| Workbook.Worksheet.Header | excel_processor.py:228 | `[cell.value for cell in ws[1]]`: the cells of sheet row 1 |
| SampleBorders.Differs | excel_processor.py:151 | `current_sample != sample_name` on pandas values: a blank (NaN) name differs from everything, itself included |
| SampleBorders.ClosesRun | excel_processor.py:151-171 | a data row closes a run when it is the last row or the next row's name differs |
| SampleBorders.BorderCells | excel_processor.py:147-171 | every sheet column of the sheet row of each run-closing data row |
| SampleBorders.Columns | excel_processor.py:132 | the sheet's columns are 1 to max_column |
| SampleBorders.UniformWidths | excel_processor.py:132-134 | every column of the sheet gets width 15 |
| SampleBorders.BorderRow | excel_processor.py:156-171 | one sheet row gets a bottom border on every column; nothing else changes |
| SampleBorders.SetWidths | excel_processor.py:132-134 | the widths become 15 on every column; nothing else changes |
| SampleBorders.BordersBeforeStep | excel_processor.py:147-162 | visiting one more row adds the previous row's border exactly when the names differ |
| SampleBorders.BordersComplete | excel_processor.py:147-171 | the changes seen in the loop plus the final border are exactly the run-closing rows |
| SampleBorders.ApplySampleBorders | excel_processor.py:121-175 | the widths are 15 and the borders are exactly the run-closing rows; the cells and fills are unchanged |
| SampleBorders.BorderCellsMembership | excel_processor.py:147-171 | (row, col) is bordered iff col is a sheet column and data row row − 2 is the last row or its name differs from the next one |
| SampleBorders.NoRowsNoBorders | excel_processor.py:167-171 | an empty table gets no border |
| SampleBorders.GroupedBorders | excel_processor.py:147-171 | with adjacent, named samples, a row is bordered iff no later row has its name, whatever the sample's row count |
| SampleBorders.SplitSampleBordered | excel_processor.py:151 | a non-adjacent sample is bordered after each of its runs: names A, B, A border every row |
| SampleBorders.BlankBordered | excel_processor.py:151 | a row with no sample name, and the row before it, are always bordered (NaN != NaN) |
| Parameters.Defaults | excel_processor.py:185-190 | the defaults define exactly the four thresholds |
| Parameters.Assigned | excel_processor.py:198-202 | `params[row['Parameter']] = row['Value']` over the first rows, in order |
| Parameters.ParametersOf | excel_processor.py:186-206 | the defaults when the file is missing or unreadable, or when a column lookup raises KeyError; the rows' assignments otherwise, an empty dictionary for a sheet without rows |
| Parameters.LoadParameters | excel_processor.py:178-206 | the loop builds exactly `ParametersOf` of the source, including the caught KeyError and the sheet without rows |
| Parameters.AssignedKeys | excel_processor.py:198-202 | the names in the dictionary are exactly the names in the rows |
| Parameters.LastValueWins | excel_processor.py:198-202 | a name given several times keeps its last value |
| Parameters.DefaultsWithoutFile | excel_processor.py:193-206 | a missing or unreadable file gives the defaults: 10000.0 for min_krec_copies and min_trec_copies, 11.5 for max_krec_delta, 12.0 for max_trec_delta |
| Parameters.NoPerKeyDefault | excel_processor.py:196-203 | a sheet that was read replaces the defaults: a name it lacks is absent, not defaulted |
| Parameters.MissingColumnDefaults | excel_processor.py:198-206 | a sheet with rows but no Parameter or Value column gives the defaults (the KeyError is caught) |
| Parameters.EmptySheetNoParameters | excel_processor.py:197-203 | a sheet without rows gives an empty dictionary |
| Highlight.Below | excel_processor.py:246-265 | Python's `a < b`: numbers and strings compare among themselves; text against a number or NaN raises TypeError; other mixes are false |
| Highlight.Flagged | excel_processor.py:246-265 | a blank value is never filled and never looks its threshold up |
| Highlight.ThresholdKeys | excel_processor.py:244-257 | only KREC and TREC rows have thresholds |
| Highlight.HeaderColumns | excel_processor.py:229-236 | the three columns are found exactly when all three labels are in the header, each at its label |
| Highlight.RowFills | excel_processor.py:241-267 | a row's pair of flags: Copies/mln below its minimum and Delta above its maximum for KREC and TREC, none for other targets, or the first error |
| Highlight.Formatting | excel_processor.py:227-267 | no fill when a column is missing; otherwise the fills of every row in order, or the first error |
| Highlight.ErrorPersists | excel_processor.py:239-267 | once a row raises, the loop's outcome is that error |
| Highlight.HighlightRow | excel_processor.py:240-267 | one row's checks add exactly the fills `RowFills` gives for that row, or give its error |
| Highlight.HighlightRows | excel_processor.py:239-267 | the row loop gives the fills of every row, or the first error |
| Highlight.ApplyConditionalFormatting | excel_processor.py:209-267 | the sheet gets exactly the fills `Highlight.Formatting` gives; with a missing column it gets none; on an error it keeps no fill; nothing else changes |
| Highlight.FillsWhere | excel_processor.py:245-267 | every fill lies on a data row, in the Copies/mln or the Delta column |
| Highlight.FillsOfRow | excel_processor.py:240-267 | a row's two cells are filled exactly as that row's check says |
| Highlight.NumericNeverFails | excel_processor.py:245-267 | with numeric thresholds and numeric or blank cells, no row raises |
| Highlight.ThresholdRules | excel_processor.py:244-267 | a KREC/TREC Copies/mln cell is filled iff it is a number strictly below its minimum, and its Delta cell iff it is a number strictly above its maximum |
| Highlight.OtherTargetsNotFilled | excel_processor.py:244-267 | rows of other targets are never filled |
| Highlight.MissingColumnNoFill | excel_processor.py:229-236 | with any of the three columns missing, nothing is filled and nothing fails |
| Highlight.MissingKeyRaises | excel_processor.py:246-259 | a KREC or TREC row with a Copies/mln value and no minimum for its target raises |
| Highlight.DefaultThresholdsExample | excel_processor.py:186-267 | with the defaults, KREC copies 9999.9 and TREC Delta 12.5 are filled; KREC Delta 11.5 and TREC copies 10000.1 are not |
| Processor.Prepared | excel_processor.py:32-41 | the frame before the grouping pass is rectangular and has the three derived columns |
| Processor.PrepareFrame | excel_processor.py:32-41 | the frame read in place and reshaped holds that table |
| Processor.WriteResults | excel_processor.py:110-118 | the saved sheet holds the frame, widths 15, exactly the run-closing borders, and the highlight fills, or no fill and the highlight error |
| Processor.ProcessExcelFile | excel_processor.py:8-118 | no header means no output and HeaderNotFound; a failing grouping pass means no output and its error; otherwise the sheet is written, bordered and highlighted, and the path returned |
| Processor.DerivedCellsNumeric | excel_processor.py:39-267 | on the pipeline's own frame, numeric thresholds never make the highlight pass raise |
| Processor.TransformedNotText | excel_processor.py:39-103 | after a successful pass, Copies/mln and Delta hold no text |
| Processor.DefaultsNumeric | excel_processor.py:185-190 | the default thresholds are numbers |

## Left out

- Spreadsheet I/O is not modelled:
  - the two `pd.read_excel` calls are the grid given as a value;
  - `to_excel` is `Workbook.Worksheet.Write`;
  - `openpyxl` load, save and close are left out;
  - the styles are position sets, not `Border` or `PatternFill` objects.
- pandas renaming of duplicate or blank header cells ("X.1", "Unnamed: k") is not modelled. Labels are the header cells as read, and a label lookup takes the first column carrying it.
- Metrics.DerivedRow: division by a zero RNP/2 (lines 69 and 78) is not modelled. When the Quantity column holds only numbers (float64), numpy yields inf or NaN. When any Quantity cell is text, the column holds plain Python numbers and `100 / 0.0` raises ZeroDivisionError. Both outcomes are excluded by the precondition `DivisionsDefinedIn`, which `Processor.Processable` carries. It excludes only divisions the loop executes: a group that raises TypeError at line 69 before its TREC division, and the groups after the first group that raises, are admitted and give TypeError (`MetricsFacts.TextKrecShieldsZero`, `MetricsFacts.ZeroAfterFailureAdmitted`).
- IEEE floating point is not modelled: numbers are `real`, NaN is the blank cell, and infinities are not modelled.
- Python's `float()` on strings is the parameter `parse`; its parsing rules are not modelled.
- The warnings printed at lines 205 and 234 are left out; they have no effect on the result.
- Parameters.LoadParameters: a parameters file is a rectangular table of cells. Names that are not text never match a threshold. Several blank (NaN) names merge into one key, which no lookup can observe.
- Highlight.ApplyConditionalFormatting: it reads the frame through the positions in the sheet's header. The sheet was written from that frame, so its header row is the frame's labels, and the method requires exactly that. Strings compare by character code, as Python compares code points.
- `gui_app.py` (widgets, threads, message boxes, `os.startfile`) and `build_exe.py` (a PyInstaller call) are not part of this model.
- OutputPath: pathlib's rendering of a directory and a name as one string is not modelled. A path is its parent and its name.
- OutputPath.SuffixDot: follows pathlib up to Python 3.13, where a last dot that ends the name starts no suffix. Python 3.14 treats a single trailing dot as a suffix, which `OutputPath.TrailingDotSplit` does not cover.
- Workbook.Worksheet.Write: the header style pandas gives row 1 (bold font, thin borders, centred text) is not modelled.
