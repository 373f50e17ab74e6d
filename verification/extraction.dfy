/** `extract_data`: the report sheet is read as a sequence of rows; the Back
    block starts at row 20 and ends before the first "Sum" sentinel, the Front
    block starts three rows after that sentinel and ends before the next one,
    and every peak is tagged with its channel and the run's timestamp text. */
module Extraction {
  import opened Options
  import opened Strings
  import opened Cells
  import opened Calibration

  /** The three columns of a report row the extractor reads: the sentinel
      column F (index 5), retention time B (index 1) and area J (index 9). */
  datatype Row = Row(marker: Cell, rt: Cell, area: Cell)

  /** The first sheet of a report: its rows, and the text of cell H4 that
      holds the path of the signal file. */
  datatype Sheet = Sheet(rows: seq<Row>, h4: string)

  /** One extracted peak, as a row of the extracted frame. */
  datatype Peak = Peak(rt: Cell, area: Cell, detector: Detector, dateTime: Option<string>)

  const FirstDataRow: nat := 20
  const Sentinel: string := "Sum"
  const Marker: string := "Signals"
  /** `len('2024-03-25 12-10-52')`. */
  const StampWidth: nat := 19

  predicate IsSentinel(r: Row) {
    r.marker == Text(Sentinel)
  }

  /** `s` is the first sentinel row at or after row `from`. */
  predicate FirstSentinel(rows: seq<Row>, from: nat, s: nat) {
    from <= s < |rows| && IsSentinel(rows[s]) && forall j :: from <= j < s ==> !IsSentinel(rows[j])
  }

  /** The scan `for row in range(from, nrows): if cell_value(row, 5) == 'Sum'`. */
  function FindSentinel(rows: seq<Row>, from: nat): (r: Option<nat>)
    ensures r.Some? ==> FirstSentinel(rows, from, r.value)
    ensures r.None? ==> forall j :: from <= j < |rows| ==> !IsSentinel(rows[j])
    decreases |rows| - from
  {
    if from >= |rows| then None
    else if IsSentinel(rows[from]) then Some(from)
    else FindSentinel(rows, from + 1)
  }

  /** Number of rows in Python's `range(start, end)`. */
  function Width(start: int, end: int): nat {
    if start < end then end - start else 0
  }

  /** `col_values(.., start_rowx=start, end_rowx=end)`: rows `start` up to but
      excluding `end`, nothing when `end <= start`. */
  function Span(rows: seq<Row>, start: nat, end: nat): (r: seq<Row>)
    requires end <= |rows|
    ensures |r| == Width(start, end)
    ensures forall k :: 0 <= k < |r| ==> r[k] == rows[start + k]
  {
    if start < end then rows[start..end] else []
  }

  /** The `date_time` text taken from cell H4: the (at most) 19 characters that
      begin one character after the first "Signals", clipped at the end of the
      text as a Python slice is; `None` when "Signals" does not occur. */
  function StampText(h4: string): (r: Option<string>)
    ensures r.None? <==> forall j :: 0 <= j ==> !OccursAt(h4, Marker, j)
    ensures forall i: nat :: FirstOccurrence(h4, Marker, i) ==>
      r == Some(Slice(h4, i + |Marker| + 1, i + |Marker| + 1 + StampWidth))
    ensures r.Some? ==> |r.value| <= StampWidth
  {
    match Find(h4, Marker)
    case None => None
    case Some(i) =>
      var start := i + |Marker| + 1;
      Some(Slice(h4, start, start + StampWidth))
  }

  /** The frame rows of one detector block. */
  function Tag(rows: seq<Row>, d: Detector, stamp: Option<string>): (ps: seq<Peak>)
    ensures |ps| == |rows|
    ensures forall k :: 0 <= k < |ps| ==> ps[k] == Peak(rows[k].rt, rows[k].area, d, stamp)
  {
    seq(|rows|, k requires 0 <= k < |rows| => Peak(rows[k].rt, rows[k].area, d, stamp))
  }

  /** `extract_data` on one sheet. A missing Back sentinel makes `None + 4`
      fail, a missing Front sentinel leaves `end_row_front` unbound; both are
      caught and give `None`. */
  function Extract(sheet: Sheet): (r: Option<seq<Peak>>)
    ensures r.None? <==>
      (forall j :: FirstDataRow <= j < |sheet.rows| ==> !IsSentinel(sheet.rows[j]))
      || (exists s: nat :: FirstSentinel(sheet.rows, FirstDataRow, s)
            && forall j :: s + 3 <= j < |sheet.rows| ==> !IsSentinel(sheet.rows[j]))
    ensures r.Some? ==> forall k :: 0 <= k < |r.value| ==> r.value[k].dateTime == StampText(sheet.h4)
  {
    var rows := sheet.rows;
    match FindSentinel(rows, FirstDataRow)
    case None => None
    case Some(s) =>
      var endBack := s - 1;
      var startFront := endBack + 4;
      match FindSentinel(rows, startFront)
      case None => None
      case Some(f) =>
        var endFront := f - 1;
        var stamp := StampText(sheet.h4);
        Some(Tag(Span(rows, FirstDataRow, endBack), Back, stamp)
             + Tag(Span(rows, startFront, endFront), Front, stamp))
  }

  /** With the sentinels at rows `s` and `f`, the frame is the Back block
      followed by the Front block. */
  lemma ExtractBlocks(sheet: Sheet, s: nat, f: nat)
    requires FirstSentinel(sheet.rows, FirstDataRow, s)
    requires FirstSentinel(sheet.rows, s + 3, f)
    ensures Extract(sheet) == Some(Tag(Span(sheet.rows, FirstDataRow, s - 1), Back, StampText(sheet.h4))
                                   + Tag(Span(sheet.rows, s + 3, f - 1), Front, StampText(sheet.h4)))
  {
    assert FindSentinel(sheet.rows, FirstDataRow) == Some(s);
    assert FindSentinel(sheet.rows, s + 3) == Some(f);
  }

  /** With the sentinels at rows `s` and `f`, the frame holds rows 20 .. s-2
      tagged Back followed by rows s+3 .. f-2 tagged Front: the row just
      before each sentinel is left out. */
  lemma ExtractRows(sheet: Sheet, s: nat, f: nat)
    requires FirstSentinel(sheet.rows, FirstDataRow, s)
    requires FirstSentinel(sheet.rows, s + 3, f)
    ensures Extract(sheet).Some?
    ensures var ps := Extract(sheet).value;
      var nb := Width(FirstDataRow, s - 1);
      && |ps| == nb + Width(s + 3, f - 1)
      && (forall k :: 0 <= k < nb ==>
            FirstDataRow + k < s - 1
            && ps[k] == Peak(sheet.rows[FirstDataRow + k].rt, sheet.rows[FirstDataRow + k].area, Back, StampText(sheet.h4)))
      && (forall k :: nb <= k < |ps| ==>
            s + 3 + (k - nb) < f - 1
            && ps[k] == Peak(sheet.rows[s + 3 + (k - nb)].rt, sheet.rows[s + 3 + (k - nb)].area, Front, StampText(sheet.h4)))
  {
    ExtractBlocks(sheet, s, f);
    var rows := sheet.rows;
    var stamp := StampText(sheet.h4);
    var back := Tag(Span(rows, FirstDataRow, s - 1), Back, stamp);
    var front := Tag(Span(rows, s + 3, f - 1), Front, stamp);
    var ps := back + front;
    forall k | 0 <= k < |back| ensures ps[k] == back[k] == Peak(rows[FirstDataRow + k].rt, rows[FirstDataRow + k].area, Back, stamp) {
    }
    forall k | |back| <= k < |ps|
      ensures ps[k] == front[k - |back|] == Peak(rows[s + 3 + (k - |back|)].rt, rows[s + 3 + (k - |back|)].area, Front, stamp)
    {
    }
  }

  /** After a prefix without "Signals", the marker placed next is the first
      one: its leading `S` appears nowhere else in "Signals", so no occurrence
      can straddle the prefix and the marker. */
  lemma MarkerAfterPrefix(prefix: string, tail: string)
    requires Find(prefix, Marker).None?
    ensures Find(prefix + Marker + tail, Marker) == Some(|prefix|)
  {
    var h4 := prefix + Marker + tail;
    var n := |Marker|;
    assert OccursAt(h4, Marker, |prefix|) by {
      assert h4[|prefix|..|prefix| + n] == Marker;
    }
    assert forall d :: 1 <= d < n ==> Marker[d] != 'S';
    forall j | 0 <= j < |prefix| ensures !OccursAt(h4, Marker, j) {
      if j + n <= |prefix| {
        assert h4[j..j + n] == prefix[j..j + n];
        assert !OccursAt(prefix, Marker, j);
      } else if j + n <= |h4| {
        var d := |prefix| - j;
        assert h4[j..j + n][d] == h4[|prefix|] == 'S';
      }
    }
    FindAt(h4, Marker, |prefix|);
  }

  /** Whatever follows the first "Signals", the stamp is the slice that skips
      one separator character and keeps at most 19. */
  lemma StampAfterMarker(prefix: string, tail: string)
    requires Find(prefix, Marker).None?
    ensures StampText(prefix + Marker + tail) == Some(Slice(tail, 1, 1 + StampWidth))
  {
    var h4 := prefix + Marker + tail;
    var start := |prefix| + |Marker| + 1;
    var r := Slice(h4, start, start + StampWidth);
    assert StampText(h4) == Some(r) by {
      MarkerAfterPrefix(prefix, tail);
    }
    var expected := Slice(tail, 1, 1 + StampWidth);
    assert r == expected by {
      assert |r| == |expected|;
      forall k | 0 <= k < |r| ensures r[k] == expected[k] {
        assert h4[start + k] == tail[1 + k];
      }
    }
  }

  /** A path of the form `<prefix>Signals<separator><stamp>...` yields the
      stamp, whole when 19 characters long and followed by anything, or
      shorter when the path ends there. */
  lemma StampOfPath(prefix: string, separator: char, stamp: string, rest: string)
    requires Find(prefix, Marker).None?
    requires |stamp| == StampWidth || rest == []
    requires |stamp| <= StampWidth
    ensures StampText(prefix + Marker + [separator] + stamp + rest) == Some(stamp)
  {
    var tail := [separator] + stamp + rest;
    StampAfterMarker(prefix, tail);
    assert prefix + Marker + [separator] + stamp + rest == prefix + Marker + tail;
    var r := Slice(tail, 1, 1 + StampWidth);
    assert |r| == |stamp|;
    forall k | 0 <= k < |r| ensures r[k] == stamp[k] {
      assert tail[1 + k] == stamp[k];
    }
  }

  /** An H4 that ends right at "Signals" (or one character after it) yields
      the empty stamp, not `None`. */
  lemma StampAtEnd(prefix: string, tail: string)
    requires Find(prefix, Marker).None?
    requires |tail| <= 1
    ensures StampText(prefix + Marker + tail) == Some("")
  {
    StampAfterMarker(prefix, tail);
  }
}
