/** One report through the whole data path: `extract_data`, then `sum_area`
    and `calculate_conc` against the calibration table, as the script's main
    loop does for each frame. The lemmas hold for any table whose names are
    distinct and whose slopes are positive, which the calibration table is. */
module Pipeline {
  import opened Options
  import opened Strings
  import opened Calibration
  import opened Extraction
  import opened Matching
  import opened Calendar
  import opened Concentration

  /** What a report turns into: nothing (`extract_data` gave `None` and the
      report is skipped), an empty pivot, or one row of concentrations. */
  datatype Outcome = Skipped | NoRow | Converted(row: ConcRow)

  /** A table the conversion can rely on: no two entries share a name and
      every slope is positive. */
  predicate Calibrated(t: seq<Entry>) {
    && (forall i, j :: 0 <= i < j < |t| ==> t[i].compound != t[j].compound)
    && (forall i :: 0 <= i < |t| ==> t[i].slope > 0.0)
  }

  lemma TableCalibrated()
    ensures Calibrated(Table())
  {
    NamesDistinct();
    SlopesPositive();
  }

  /** Every peak of a report carries the report's one timestamp. */
  predicate Stamped(peaks: seq<Peak>, stamp: Option<string>) {
    forall k :: 0 <= k < |peaks| ==> peaks[k].dateTime == stamp
  }

  /** A report timestamp that gives the pivot no key: none at all, or a text
      `to_datetime` turns into NaT. */
  predicate Undated(stamp: Option<string>) {
    stamp.None? || IsNaTText(stamp.value)
  }

  /** Some entry of `t` selects some peak. */
  predicate AnyMatch(peaks: seq<Peak>, t: seq<Entry>) {
    exists i, p :: 0 <= i < |t| && p in peaks && Selects(t[i], p)
  }

  /** The key a run's timestamp text turns into: shifted back 20 minutes when
      it parses, kept as text otherwise. */
  function KeyOf(text: string): (s: Stamp)
    ensures s.Unparsed? <==> Parse(text).None?
    ensures s.Unparsed? ==> s.text == text
    ensures s.Shifted? ==> Seconds(Parse(text).value) >= ShiftMinutes * 60 ==>
      Seconds(s.at) == Seconds(Parse(text).value) - ShiftMinutes * 60
  {
    if Parse(text).Some? then Shifted(ShiftBack(Parse(text).value)) else Unparsed(text)
  }

  /** `sum_area` then `calculate_conc` on the peaks of one report: never
      `Skipped` (that is decided before), and every compound in the row is a
      calibration compound. */
  function Convert(peaks: seq<Peak>, t: seq<Entry>): (o: Outcome)
    ensures !o.Skipped?
    ensures o.Converted? ==> forall c :: c in o.row.conc ==> exists k :: 0 <= k < |t| && t[k].compound == c
  {
    match CalculateConc(SumArea(peaks, t), t)
    case None => NoRow
    case Some(row) => Converted(row)
  }

  function Process(sheet: Sheet): (o: Outcome)
    ensures o.Skipped? <==> Extract(sheet).None?
    ensures o.NoRow? <==> Extract(sheet).Some? && (Undated(StampText(sheet.h4)) || !AnyMatch(Extract(sheet).value, Table()))
    ensures o.Converted? ==> o.row.dateTime == KeyOf(StampText(sheet.h4).value)
  {
    match Extract(sheet)
    case None => Skipped
    case Some(peaks) =>
      var stamp := StampText(sheet.h4);
      assert Stamped(peaks, stamp);
      TableCalibrated();
      ConvertOutcome(peaks, stamp, Table());
      Convert(peaks, Table())
  }

  /** On `sum_area` output, each row's concentration comes from its own
      table entry and its own area: the names are distinct, so neither the
      first-entry lookup nor the overwrite by a later row of the same name
      changes anything. */
  lemma TableConcentrations(peaks: seq<Peak>, t: seq<Entry>)
    requires Calibrated(t)
    ensures var rows := SumArea(peaks, t);
      forall i :: 0 <= i < |rows| ==> Concentrations(rows, t)[i] == Invert(rows[i].area, t[i])
  {
    var rows := SumArea(peaks, t);
    forall i | 0 <= i < |rows| ensures Concentrations(rows, t)[i] == Invert(rows[i].area, t[i]) {
      var c := rows[i].compound;
      assert c == t[i].compound;
      assert forall k :: 0 <= k < |rows| ==> rows[k].compound == t[k].compound;
      assert LastIndex(rows, c, |rows|) == Some(i);
      assert EntryIndex(t, c) == Some(i);
    }
  }

  /** Row `i` of `sum_area` output carries the report's timestamp exactly
      when a peak matched, and its concentration is then defined because
      every slope is positive. */
  lemma RowFacts(peaks: seq<Peak>, stamp: Option<string>, t: seq<Entry>, i: nat)
    requires Calibrated(t) && Stamped(peaks, stamp) && i < |t|
    ensures var rows := SumArea(peaks, t);
      && rows[i].dateTime == (if rows[i].area.Some? then stamp else None)
      && (rows[i].area.Some? <==> exists p :: p in peaks && Selects(t[i], p))
      && (Concentrations(rows, t)[i].Some? <==> rows[i].area.Some?)
  {
    TableConcentrations(peaks, t);
    MatchedRowsCarryStamp(peaks, t, stamp);
  }

  /** The pivot is empty exactly when the report has no usable timestamp or
      no peak matched; otherwise its key is the report's timestamp text. */
  lemma RunKeyOfPeaks(peaks: seq<Peak>, stamp: Option<string>, t: seq<Entry>)
    requires Calibrated(t) && Stamped(peaks, stamp)
    ensures var rows := SumArea(peaks, t);
      && (RunKey(rows, t).None? <==> Undated(stamp) || !AnyMatch(peaks, t))
      && (RunKey(rows, t).Some? ==> RunKey(rows, t) == stamp)
  {
    var rows := SumArea(peaks, t);
    var cs := Concentrations(rows, t);
    var key := RunKey(rows, t);
    forall j | 0 <= j < |rows| ensures rows[j].dateTime.Some? ==> rows[j].dateTime == stamp {
      RowFacts(peaks, stamp, t, j);
    }
    assert stamp.Some? && IsNaTText(stamp.value) ==> AllStampsConvert(rows);
    if !Undated(stamp) && AnyMatch(peaks, t) {
      var i, p :| 0 <= i < |t| && p in peaks && Selects(t[i], p);
      RowFacts(peaks, stamp, t, i);
      assert Pivoted(rows, cs, i);
    }
    if key.Some? {
      var i: nat :| Keyed(rows, cs, key.value, i);
      RowFacts(peaks, stamp, t, i);
      var p :| p in peaks && Selects(t[i], p);
    }
  }

  /** When every timestamp of the frame is the same text, the frame parses
      exactly when that text does. */
  lemma UniformStamp(rows: seq<AreaRow>, key: string, i: nat)
    requires i < |rows| && rows[i].dateTime == Some(key)
    requires forall j :: 0 <= j < |rows| && rows[j].dateTime.Some? ==> rows[j].dateTime.value == key
    ensures StampFor(rows, key) == KeyOf(key)
  {
    assert AllStampsConvert(rows) <==> Parse(key).Some? || IsNaTText(key);
  }

  /** The pivot key of a converted report is its timestamp, shifted when it
      parses. */
  lemma StampOfPeaks(peaks: seq<Peak>, stamp: Option<string>, t: seq<Entry>)
    requires Calibrated(t) && Stamped(peaks, stamp)
    requires RunKey(SumArea(peaks, t), t).Some?
    ensures stamp.Some?
    ensures var rows := SumArea(peaks, t);
      StampFor(rows, RunKey(rows, t).value) == KeyOf(stamp.value)
  {
    var rows := SumArea(peaks, t);
    RunKeyOfPeaks(peaks, stamp, t);
    var key := RunKey(rows, t).value;
    assert stamp == Some(key);
    forall j | 0 <= j < |rows| && rows[j].dateTime.Some? ensures rows[j].dateTime.value == key {
      RowFacts(peaks, stamp, t, j);
    }
    var i: nat :| Keyed(rows, Concentrations(rows, t), key, i);
    UniformStamp(rows, key, i);
  }

  /** The outcome of converting one report's peaks, in terms of the report. */
  lemma ConvertOutcome(peaks: seq<Peak>, stamp: Option<string>, t: seq<Entry>)
    requires Calibrated(t) && Stamped(peaks, stamp)
    ensures Convert(peaks, t).NoRow? <==> Undated(stamp) || !AnyMatch(peaks, t)
    ensures Convert(peaks, t).Converted? ==> stamp.Some? && Convert(peaks, t).row.dateTime == KeyOf(stamp.value)
  {
    RunKeyOfPeaks(peaks, stamp, t);
    if RunKey(SumArea(peaks, t), t).Some? {
      StampOfPeaks(peaks, stamp, t);
    }
  }

  /** A value the pivot collected under the run's key is that row's
      concentration. */
  lemma KeyedValue(rows: seq<AreaRow>, t: seq<Entry>, i: nat)
    requires CalculateConc(rows, t).Some?
    requires Keyed(rows, Concentrations(rows, t), RunKey(rows, t).value, i)
    ensures rows[i].compound in CalculateConc(rows, t).value.conc
    ensures CalculateConc(rows, t).value.conc[rows[i].compound] == Concentrations(rows, t)[i].value
  {
  }

  /** A compound some peak matched is in the row, at `(area - y_int)/slope`
      of its summed area. */
  lemma MatchedCompound(peaks: seq<Peak>, stamp: Option<string>, t: seq<Entry>, i: nat)
    requires Calibrated(t) && Stamped(peaks, stamp) && i < |t|
    requires Convert(peaks, t).Converted?
    requires exists p :: p in peaks && Selects(t[i], p)
    ensures var conc := Convert(peaks, t).row.conc;
      && t[i].compound in conc
      && Some(conc[t[i].compound]) == Invert(Some(SelectedSum(t[i], peaks)), t[i])
  {
    var e := t[i];
    var rows := SumArea(peaks, t);
    var cs := Concentrations(rows, t);
    var r := CalculateConc(rows, t);
    assert r.Some? && Convert(peaks, t).row == r.value;
    RunKeyOfPeaks(peaks, stamp, t);
    var key := RunKey(rows, t).value;
    RowFacts(peaks, stamp, t, i);
    TableConcentrations(peaks, t);
    assert Keyed(rows, cs, key, i);
    KeyedValue(rows, t, i);
    assert rows[i].area == Some(SelectedSum(e, peaks));
  }

  /** A compound no peak matched has no value in the row (its NaN is dropped
      by the pivot): it is not set to zero. */
  lemma UnmatchedCompound(peaks: seq<Peak>, stamp: Option<string>, t: seq<Entry>, i: nat)
    requires Calibrated(t) && Stamped(peaks, stamp) && i < |t|
    requires Convert(peaks, t).Converted?
    requires forall p :: p in peaks ==> !Selects(t[i], p)
    ensures t[i].compound !in Convert(peaks, t).row.conc
  {
    var rows := SumArea(peaks, t);
    var cs := Concentrations(rows, t);
    var key := RunKey(rows, t).value;
    forall j: nat | Keyed(rows, cs, key, j) ensures rows[j].compound != t[i].compound {
      RowFacts(peaks, stamp, t, j);
      RowFacts(peaks, stamp, t, i);
    }
  }

  /** In a converted report, a calibration compound is in the row exactly
      when some peak matched it, and then holds the inverted calibration
      value of its summed area. */
  lemma ProcessCompound(sheet: Sheet, i: nat)
    requires Process(sheet).Converted? && i < |Table()|
    ensures var e := Table()[i];
      var peaks := Extract(sheet).value;
      var conc := Process(sheet).row.conc;
      && (e.compound in conc <==> exists p :: p in peaks && Selects(e, p))
      && (e.compound in conc ==> Some(conc[e.compound]) == Invert(Some(SelectedSum(e, peaks)), e))
  {
    var peaks := Extract(sheet).value;
    var stamp := StampText(sheet.h4);
    TableCalibrated();
    assert Stamped(peaks, stamp);
    assert Process(sheet) == Convert(peaks, Table());
    if exists p :: p in peaks && Selects(Table()[i], p) {
      MatchedCompound(peaks, stamp, Table(), i);
    } else {
      UnmatchedCompound(peaks, stamp, Table(), i);
    }
  }

  lemma {:induction false} ZeroFilledNone(rows: seq<AreaRow>, table: seq<Entry>)
    requires forall k :: 0 <= k < |table| ==> table[k].compound in Names(rows)
    ensures ZeroFilled(rows, table) == []
  {
    if table != [] {
      assert forall k :: 1 <= k < |table| ==> table[1..][k - 1] == table[k];
      ZeroFilledNone(rows, table[1..]);
    }
  }

  /** `sum_area` names every calibration compound, so the zero-fill loop of
      `calculate_conc` adds no column. */
  lemma ZeroFillNeverFires(peaks: seq<Peak>, table: seq<Entry>)
    ensures ZeroFilled(SumArea(peaks, table), table) == []
  {
    var rows := SumArea(peaks, table);
    forall k | 0 <= k < |table| ensures table[k].compound in Names(rows) {
      assert Names(rows)[k] == table[k].compound;
    }
    ZeroFilledNone(rows, table);
  }

  /** An H4 path that ends at "Signals" (or one character after it) gives
      the empty stamp text, which `to_datetime` reads as NaT and the pivot
      drops: the report yields no row. */
  lemma MarkerAtEndGivesNoRow(sheet: Sheet, prefix: string, tail: string)
    requires Extract(sheet).Some?
    requires Find(prefix, Marker).None? && |tail| <= 1
    requires sheet.h4 == prefix + Marker + tail
    ensures Process(sheet).NoRow?
  {
    StampAtEnd(prefix, tail);
  }
}
