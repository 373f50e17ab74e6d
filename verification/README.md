# Automated GC data path, modelled in Dafny

`Automated_GC.py` turns the reports of a two-detector gas chromatograph
into volatile-organic-compound concentrations. This project models one
report's path through that script, plus the column ordering of the
combined table. Every step is a pure function over immutable datatypes:

- **Calibration table** (`Calibration`). `get_compounds` is modelled as
  46 entries of name, expected retention time, intercept, slope and
  detector label. `Channel` maps a label to the Back or Front detector.
- **Report extraction** (`Extraction`). The sheet is a sequence of rows
  (column-5 marker, retention time, area) plus the text of cell H4.
  `Extract` finds the first `Sum` at or after row 20 and slices the Back
  rows. It searches again from three rows later and slices the Front rows.
  Each peak is tagged with its detector and the timestamp text taken from
  H4 after `Signals`.
- **Cells** (`Cells`, `Strings`). A cell holds a number or a text.
  `to_numeric(..., errors='coerce')` reads a decimal numeral or gives NaN,
  which is modelled as `None`.
- **Peak matching** (`Matching`). For each calibration entry, `sum_area`
  selects the peaks of that entry's detector whose numeric retention time
  lies in `[rt*0.98, rt*1.02]`. It sums their areas, with pandas skipping
  NaN, and keeps the first match's timestamp. It emits one row per entry,
  with no area and no timestamp when nothing matched.
- **Concentrations** (`Concentration`, `Calendar`).
  - Each area is inverted through its linear calibration curve,
    `(area - y_int) / slope`.
  - The zero-fill loop is modelled as the list of columns it would create.
  - The `%Y-%m-%d %H-%M-%S` timestamp is parsed and moved back 20
    minutes, on the Gregorian calendar.
  - The pivot is one row of concentrations keyed by that timestamp.
- **Whole report** (`Pipeline`). The script's loop body runs
  `sum_area` then `calculate_conc` on each extracted frame.
- **Column ordering** (`Columns`). `reorder_columns` is modelled on the
  list of present columns.

Numbers are Dafny `real`s, so arithmetic is exact; NaN and `None` are
`Option.None`. The file reading (`xlrd`), folder walking, CSV writing and
dialogs are not modelled. The sheet, the H4 text and the list of present
columns are parameters instead.

Where the code and its documentation disagree, the model follows the code:

- **Zero-fill.** A calibration compound absent from the input is
  documented as getting a column of 0. In the code it does not get one.
  - The zero-fill loop (Automated_GC.py:191-193) assigns a scalar to a
    column of an empty frame, so the column has no rows.
  - The pivot (line 215) reads only `Concentration_ppb`, so such a column
    never reaches the output.
  - On `sum_area` output the loop never runs anyway
    (`Pipeline.ZeroFillNeverFires`).
  - An unmatched compound's concentration is NaN, which `pivot_table`
    drops. That compound is simply absent from the row
    (`Pipeline.UnmatchedCompound`).
- **Shifting.** The timestamp is described as shifted for every report.
  In the code `to_datetime` treats three kinds of text differently:
  - A text in the `%Y-%m-%d %H-%M-%S` format that names a real date is
    parsed and moved back 20 minutes.
  - The empty text and the spellings `NaT`, `nat`, `NAT`, `nan`, `NaN`
    and `NAN` become NaT without an error (`Calendar.IsNaTText`). NaT
    minus 20 minutes is still NaT, and `pivot_table` drops NaT keys, so
    such a report yields no row. An H4 path that ends right at `Signals`
    gives the empty text (`Pipeline.MarkerAtEndGivesNoRow`).
  - Any other text raises a `ValueError`, which is caught. No shift
    happens, and the pivot is keyed by the raw text
    (`Concentration.Stamp.Unparsed`). Such a row is produced but never
    reaches a file: `write_to_csv` calls `strftime` on the text
    (line 250), which raises, and that error is caught (line 257).

## Model

| member | source | states |
|---|---|---|
| Calibration.Channel | Automated_GC.py:158-179 | `"Back"` selects the Back channel, `"Front"` the Front channel, and any other label selects none (the invalid-detector branch) |
| Calibration.Table | Automated_GC.py:101-141 | the table has 46 entries; entry `i` holds the `i`-th name, retention time, intercept, slope and detector label of the parallel lists |
| Calibration.SlopesPositive | Automated_GC.py:121-127 | every calibration slope is strictly positive, so inverting a curve never divides by zero |
| Calibration.BackBeforeFront | Automated_GC.py:128-131 | every label names a detector, and every Back entry comes before every Front entry |
| Calibration.NamesDistinct | Automated_GC.py:102-109 | no two entries share a compound name |
| Columns.DesiredOrderIsTable | Automated_GC.py:276-282 | after `date_time` and `Compound`, the canonical column order is exactly the calibration table's compound column, and it has no repeats |
| Cells.ToNumber | Automated_GC.py:146-147 | a numeric cell keeps its value; a text cell is a number exactly when it is a decimal numeral, and is then read as one; every other text is NaN |
| Cells.ParseDecimal | Automated_GC.py:146-147 | a text is read as a number exactly when it is an optional `-` followed by digits with at most one decimal point and at least one digit |
| Cells.AcceptedTexts | Automated_GC.py:146-147 | the texts read as numbers are exactly the non-empty texts of digits and at most one point, holding a digit, where only the first character may be a `-` instead |
| Cells.NumeralParts | Automated_GC.py:146-147 | a text is a numeral exactly when splitting it at its first point gives two digit strings that are not both empty |
| Cells.ParseWhole | Automated_GC.py:146-147 | a digit string, optionally after `-`, reads as the signed whole number it spells |
| Cells.ParseFraction | Automated_GC.py:146-147 | `[-]whole.fraction` reads as the signed value whole + fraction / 10^n for n fraction digits, either side possibly empty but not both |
| Cells.ParseExampleFraction | Automated_GC.py:146-147 | the text `9.6` reads as 9.6 |
| Cells.ParseExampleNegative | Automated_GC.py:146-147 | the text `-0.5` reads as -0.5 |
| Cells.ParseExampleWhole | Automated_GC.py:146-147 | the text `12` reads as 12 |
| Cells.NonNumeralsAreNaN | Automated_GC.py:161-162 | a blank cell and the text `Sum` coerce to NaN |
| Extraction.FindSentinel | Automated_GC.py:45-55 | the result is the first row at or after the start whose column-5 marker is `Sum`, and none when no later row has one |
| Extraction.Extract | Automated_GC.py:38-99 | the result is none exactly when no `Sum` occurs from row 20 on, or when none occurs from three rows after the first one; every extracted peak carries the timestamp taken from H4 |
| Extraction.ExtractRows | Automated_GC.py:44-81 | with the sentinels at rows `s` and `f`, the frame holds rows 20 .. s-2 tagged Back, then rows s+3 .. f-2 tagged Front, in sheet order; the row just before each `Sum` is dropped |
| Extraction.StampText | Automated_GC.py:82-91 | the timestamp is none exactly when `Signals` does not occur in H4; otherwise it is the slice of H4 that starts 8 characters after the first `Signals` and holds at most 19 characters, clipped at the end of the text |
| Extraction.MarkerAfterPrefix | Automated_GC.py:84 | when the prefix holds no `Signals`, the `Signals` that follows it is the first occurrence in the path |
| Extraction.StampAfterMarker | Automated_GC.py:84-88 | for a path `<prefix>Signals<tail>` whose prefix holds no `Signals`, the timestamp is the tail with its first character skipped, cut to at most 19 characters |
| Extraction.StampOfPath | Automated_GC.py:83-88 | in a path `<prefix>Signals<c><stamp>...` whose prefix holds no `Signals`, the timestamp is the 19 characters after the separator, or fewer when the text ends |
| Extraction.StampAtEnd | Automated_GC.py:84-88 | a path that ends at `Signals`, or one character after it, gives the empty timestamp, not none |
| Matching.Selected | Automated_GC.py:158-172 | a peak is kept exactly when it is in the frame, is on the entry's detector and has a numeric retention time in the inclusive window; the first kept peak is the first such peak of the frame |
| Matching.TotalAreaOfSelected | Automated_GC.py:161-162 | summing the kept peaks' numeric areas equals the independent fold over the frame that adds each selected peak's area |
| Matching.MatchEntry | Automated_GC.py:152-183 | the row names the entry's compound; its area is none exactly when no peak is selected, and then its timestamp is none too; otherwise the area is the sum over the selected peaks and the timestamp is the first selected peak's |
| Matching.SumArea | Automated_GC.py:143-186 | one row per calibration entry, in table order, row `i` being the match of entry `i` |
| Matching.SelectedSumPermutation | Automated_GC.py:159-162 | reordering the frame's peaks leaves every entry's summed area unchanged |
| Matching.SumAreaOrderIndependent | Automated_GC.py:159-171 | two frames that are permutations of each other give the same area in every row |
| Matching.SelectedSumAppend | Automated_GC.py:162 | the sum over two concatenated frames is the sum of the two sums |
| Matching.WindowEdges | Automated_GC.py:155-159 | a peak exactly on either edge of the window is selected; a peak that is not selected changes nothing in the row |
| Matching.NaNAreaCountsButAddsNothing | Automated_GC.py:160-162 | a selected peak whose area is NaN makes the entry matched, but adds nothing to the area |
| Matching.MatchedRowsCarryStamp | Automated_GC.py:163 | when every peak carries the report's timestamp, every matched row carries it too |
| Concentration.Invert | Automated_GC.py:197-200 | a concentration exists exactly when the area is a number and the slope is non-zero, and then concentration * slope + y_int is exactly the area |
| Concentration.EntryFrom | Automated_GC.py:197 | the result is the first table index at or after the start with the given name, and none when no such index exists |
| Concentration.ZeroFilled | Automated_GC.py:191-193 | a name is zero-filled exactly when some calibration entry has it and no input row names it |
| Concentration.LastIndex | Automated_GC.py:195-200 | the result is the last row before `n` with the given compound, and none when no row has it |
| Concentration.Assigned | Automated_GC.py:195-200 | after any number of loop iterations, a row whose compound is not in the table holds no concentration, and rows that share a compound hold the same value |
| Concentration.AssignedLastWins | Automated_GC.py:195-200 | after the loop's first `n` iterations, each row holds the concentration of its compound's last processed row under the first table entry of that name |
| Concentration.Concentrations | Automated_GC.py:195-200 | each row's `Concentration_ppb` is the first table entry's curve applied to the area of the last row with the same compound |
| Concentration.SameCompoundSameConcentration | Automated_GC.py:200 | rows that share a compound share their concentration |
| Concentration.RunKey | Automated_GC.py:215 | the pivot is empty exactly when no row has a concentration and a timestamp that survives (one that did not become NaT); otherwise its key is the surviving timestamp of such a row |
| Concentration.StampFor | Automated_GC.py:208-213 | the key is shifted exactly when every timestamp in the frame parses or is a NaT spelling and the key itself parses; when shifted it is 20 minutes before the parsed key; otherwise it is the raw text |
| Concentration.Collect | Automated_GC.py:215 | the pivot row has a compound exactly when some row under the key has that compound and a concentration, and its value is that row's concentration |
| Concentration.CalculateConc | Automated_GC.py:188-218 | a row is produced exactly when the key exists; its key and compounds are as above, each value is that compound's concentration, and every compound comes from the calibration table |
| Calendar.ShiftBack | Automated_GC.py:209-211 | the seconds are kept, and a timestamp at least 20 minutes after the calendar's start becomes a valid timestamp exactly 1200 seconds earlier |
| Calendar.Render | Automated_GC.py:250 | `%Y-%m-%d %H-%M-%S` renders a valid date as 19 characters |
| Calendar.Parse | Automated_GC.py:209 | what parses is a valid date: a month 1-12, a day within that month (leap years included), an hour 0-23, and a minute and second 0-59 |
| Calendar.ParseRender | Automated_GC.py:209 | parsing a rendered date gives the same date back |
| Calendar.RenderParse | Automated_GC.py:250 | rendering a parsed text gives the text back |
| Calendar.ParseExample | Automated_GC.py:87 | `2024-03-25 12-10-52` parses to 25 March 2024, 12:10:52 |
| Calendar.RenderExample | Automated_GC.py:250 | 25 March 2024, 12:10:52 renders as `2024-03-25 12-10-52` |
| Calendar.ShiftExamples | Automated_GC.py:209-211 | 12:10:52 becomes 11:50:52; 1 March 2024 00:10 becomes 29 February 23:50; 1 January 2023 00:05:07 becomes 31 December 2022 23:45:07 |
| Columns.Reorder | Automated_GC.py:275-301 | the reordered list holds exactly the present columns |
| Columns.PinsKeepOrder | Automated_GC.py:283-288 | moving `date_time` to position 0 and `Compound` to position 1 leaves the canonical order unchanged |
| Columns.RemoveEachIsOutside | Automated_GC.py:290-293 | removing the absent names one at a time keeps exactly the names that are present, in canonical order |
| Columns.ReorderShape | Automated_GC.py:283-299 | the result is the present canonical columns in canonical order, followed by the other present columns in input order |
| Columns.ReorderIsPermutation | Automated_GC.py:290-299 | on a column list without repeats, the result is a permutation of the input |
| Columns.ReorderLayout | Automated_GC.py:283-299 | the known columns come first and are strictly increasing in canonical rank; every column after them is unknown, and they appear in input order |
| Columns.ReorderHead | Automated_GC.py:283-288 | `date_time`, when present, comes first; `Compound`, when present, comes right after it (or first when `date_time` is absent) |
| Columns.ReorderIdempotent | Automated_GC.py:275-301 | reordering a reordered list changes nothing |
| Pipeline.KeyOf | Automated_GC.py:208-213 | a timestamp text that parses becomes a key 1200 seconds earlier; a text that does not parse stays as text |
| Pipeline.Convert | Automated_GC.py:311-312 | converting a frame never skips it, and every compound in the resulting row is a calibration compound |
| Pipeline.Process | Automated_GC.py:308-313 | a report is skipped exactly when extraction fails; it gives no row exactly when it has no timestamp, its timestamp is a NaT spelling, or no calibration entry matches a peak; otherwise the row's key is the report's timestamp, shifted when it parses |
| Pipeline.TableConcentrations | Automated_GC.py:195-200 | on `sum_area` output, every row's concentration is its own entry's curve applied to its own area |
| Pipeline.RunKeyOfPeaks | Automated_GC.py:215 | the pivot of one report is empty exactly when the report has no timestamp, its timestamp is a NaT spelling, or nothing matched, and otherwise is keyed by that timestamp |
| Pipeline.ConvertOutcome | Automated_GC.py:311-312 | converting one report's peaks gives no row exactly when the report has no timestamp, its timestamp is a NaT spelling, or nothing matched; otherwise the row is keyed by that timestamp, shifted when it parses |
| Pipeline.MatchedCompound | Automated_GC.py:195-215 | a compound some peak matched is in the row, with the calibration inverse of its summed area |
| Pipeline.UnmatchedCompound | Automated_GC.py:191-215 | a compound no peak matched is absent from the row; it is not set to 0 |
| Pipeline.ProcessCompound | Automated_GC.py:195-215 | in a converted report, a calibration compound is in the row exactly when some peak matched it, and then its value is the calibration inverse of its summed area |
| Pipeline.MarkerAtEndGivesNoRow | Automated_GC.py:206-215 | a report whose H4 path ends at `Signals` gives the empty timestamp, which becomes NaT and is dropped by the pivot, so the report yields no row |
| Pipeline.ZeroFillNeverFires | Automated_GC.py:191-193 | on `sum_area` output the zero-fill loop adds no column, because that output names every calibration compound |

## Left out

- The folder and output dialogs, workbook opening and cell access, folder traversal, and per-file error reporting are left out: they are user-interface and file I/O. The sheet is a parameter.
- Writing each frame to a CSV file, combining the CSV files, deleting them, and the order of the combined rows are left out: they are file I/O. Column ordering is modelled on the list of present columns.
- Console output is left out.
- Extraction.Extract: the model treats cell H4 as text. A non-text or missing H4 makes the H4 lookup raise, and that error is caught (Automated_GC.py:92), so the frame gets no `date_time` column. As soon as a peak matches, `sum_area` then raises an uncaught `KeyError` reading that column (lines 163 and 172), which stops the script. When no peak matches, the report yields no row.
- Concentration.CalculateConc: only the row under the first timestamp is produced. A frame whose rows carry several different timestamps would pivot into one row per timestamp. `sum_area` output carries a single timestamp, so this does not arise in the pipeline. Averaging rows of one compound under one key needs no model: those rows share their concentration (`Concentration.SameCompoundSameConcentration`).
- Calendar.Parse: only the fixed-width `%Y-%m-%d %H-%M-%S` form is accepted. `strptime` also takes fields with fewer digits, and those are not modelled. The NaT spellings are a separate predicate (`Calendar.IsNaTText`), not a result of `Parse`.
- Calendar.ShiftBack: pandas' timestamp range (years 1677-2262) is not modelled. Validity of the result is proved only for timestamps at least 20 minutes after 0001-01-01 00:00:00.
- Calendar.Render: the four-digit year padding assumes years 1-9999.
- Cells.ToNumber: the lenient forms `to_numeric` also accepts are not modelled. Exponents, surrounding spaces, a leading `+` and `inf` spellings are treated as non-numeric. A `nan` spelling is read as NaN either way.
- Matching.Selected: the window is compared in exact real arithmetic. With IEEE-754 doubles, `rt*0.98` and `rt*1.02` are rounded, so a peak exactly on an edge may fall either side.
- Concentration.Invert: a zero slope gives NaN (`None`) in the model, where floating point would give an infinity. Every calibration slope is positive, so it does not arise.
- Concentration.CalculateConc: when no input row names a calibration compound, the script never creates `Concentration_ppb` and the pivot raises `KeyError`; the model then yields no row. `sum_area` output always names every compound, so it does not arise there.
