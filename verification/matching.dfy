/** `sum_area`: for every calibration entry, the peaks of that entry's channel
    whose numeric retention time lies within 2% of the expected one are
    selected and their areas summed. */
module Matching {
  import opened Options
  import opened Cells
  import opened Calibration
  import opened Extraction

  /** One row of the frame `sum_area` returns. */
  datatype AreaRow = AreaRow(compound: string, area: Option<real>, dateTime: Option<string>)

  const LowFactor: real := 0.98
  const HighFactor: real := 1.02

  /** The inclusive window `[expected * 0.98, expected * 1.02]`. */
  predicate InWindow(expected: real, rt: real) {
    expected * LowFactor <= rt <= expected * HighFactor
  }

  /** `sum_area` selects peak `p` for entry `e`: same channel, and a retention
      time that reads as a number inside the window. */
  predicate Selects(e: Entry, p: Peak) {
    Channel(e.detector) == Some(p.detector) && ToNumber(p.rt).Some? && InWindow(e.rt, ToNumber(p.rt).value)
  }

  /** `k` is the index of the first peak `e` selects. */
  predicate FirstSelected(e: Entry, peaks: seq<Peak>, k: nat) {
    k < |peaks| && Selects(e, peaks[k]) && forall j :: 0 <= j < k ==> !Selects(e, peaks[j])
  }

  /** The filtered frame, in frame order. */
  function Selected(e: Entry, peaks: seq<Peak>): (m: seq<Peak>)
    ensures forall p :: p in m ==> p in peaks && Selects(e, p)
    ensures forall p :: p in peaks && Selects(e, p) ==> p in m
    ensures m != [] ==> exists k: nat :: FirstSelected(e, peaks, k) && m[0] == peaks[k]
  {
    if peaks == [] then []
    else if Selects(e, peaks[0]) then [peaks[0]] + Selected(e, peaks[1..])
    else
      var rest := Selected(e, peaks[1..]);
      assert rest != [] ==> exists k: nat :: FirstSelected(e, peaks, k) && rest[0] == peaks[k] by {
        if rest != [] {
          var k: nat :| FirstSelected(e, peaks[1..], k) && rest[0] == peaks[1..][k];
          assert forall j :: 1 <= j < |peaks| ==> peaks[j] == peaks[1..][j - 1];
          assert FirstSelected(e, peaks, k + 1);
        }
      }
      rest
  }

  /** What a peak adds to the sum: its area, or nothing when the area is NaN. */
  function AreaOf(p: Peak): real {
    ValueOr(ToNumber(p.area), 0.0)
  }

  /** pandas' `Series.sum()`, which skips NaN. */
  function TotalArea(ps: seq<Peak>): real {
    if ps == [] then 0.0 else AreaOf(ps[0]) + TotalArea(ps[1..])
  }

  /** Reference definition of an entry's area: every peak of the frame adds
      its area when selected and nothing otherwise. */
  function SelectedSum(e: Entry, peaks: seq<Peak>): real {
    if peaks == [] then 0.0
    else (if Selects(e, peaks[0]) then AreaOf(peaks[0]) else 0.0) + SelectedSum(e, peaks[1..])
  }

  lemma {:induction false} TotalAreaOfSelected(e: Entry, peaks: seq<Peak>)
    ensures TotalArea(Selected(e, peaks)) == SelectedSum(e, peaks)
  {
    if peaks != [] {
      TotalAreaOfSelected(e, peaks[1..]);
      if Selects(e, peaks[0]) {
        assert ([peaks[0]] + Selected(e, peaks[1..]))[1..] == Selected(e, peaks[1..]);
      }
    }
  }

  /** The row `sum_area` emits for one entry. */
  function MatchEntry(e: Entry, peaks: seq<Peak>): (r: AreaRow)
    ensures r.compound == e.compound
    ensures r.area.None? <==> forall p :: p in peaks ==> !Selects(e, p)
    ensures r.area.None? ==> r.dateTime.None?
    ensures r.area.Some? ==> r.area.value == SelectedSum(e, peaks)
    ensures r.area.Some? ==> exists k: nat :: FirstSelected(e, peaks, k) && r.dateTime == peaks[k].dateTime
  {
    var m := Selected(e, peaks);
    if m == [] then AreaRow(e.compound, None, None)
    else
      TotalAreaOfSelected(e, peaks);
      AreaRow(e.compound, Some(TotalArea(m)), m[0].dateTime)
  }

  /** `sum_area`: one row per calibration entry, in table order. */
  function SumArea(peaks: seq<Peak>, table: seq<Entry>): (rows: seq<AreaRow>)
    ensures |rows| == |table|
    ensures forall i :: 0 <= i < |table| ==> rows[i] == MatchEntry(table[i], peaks)
  {
    seq(|table|, i requires 0 <= i < |table| => MatchEntry(table[i], peaks))
  }

  lemma {:induction false} SelectedSumAppend(e: Entry, a: seq<Peak>, b: seq<Peak>)
    ensures SelectedSum(e, a + b) == SelectedSum(e, a) + SelectedSum(e, b)
  {
    if a != [] {
      assert (a + b)[1..] == a[1..] + b;
      SelectedSumAppend(e, a[1..], b);
    } else {
      assert a + b == b;
    }
  }

  /** Taking the head of `p` out of `p`, and the same peak out of `q` at
      index `k`, keeps two equal multisets equal. */
  lemma RemoveMatching(p: seq<Peak>, q: seq<Peak>, k: nat)
    requires multiset(p) == multiset(q) && p != [] && k < |q| && q[k] == p[0]
    ensures multiset(p[1..]) == multiset(q[..k] + q[k + 1..])
  {
    var x := p[0];
    assert q == q[..k] + [x] + q[k + 1..];
    assert p == [x] + p[1..];
    assert multiset(q) == multiset(q[..k]) + multiset([x]) + multiset(q[k + 1..]);
    assert multiset(p) == multiset([x]) + multiset(p[1..]);
    assert multiset(q[..k] + q[k + 1..]) == multiset(q[..k]) + multiset(q[k + 1..]);
    assert multiset(p[1..]) == multiset(p) - multiset([x]);
  }

  /** The sum over `q` is the contribution of `q[k]` plus the sum over the rest. */
  lemma SelectedSumSplit(e: Entry, q: seq<Peak>, k: nat)
    requires k < |q|
    ensures SelectedSum(e, q) == SelectedSum(e, [q[k]]) + SelectedSum(e, q[..k] + q[k + 1..])
  {
    assert q == q[..k] + [q[k]] + q[k + 1..];
    SelectedSumAppend(e, q[..k] + [q[k]], q[k + 1..]);
    SelectedSumAppend(e, q[..k], [q[k]]);
    SelectedSumAppend(e, q[..k], q[k + 1..]);
  }

  lemma {:induction false} SelectedSumPermutation(e: Entry, p: seq<Peak>, q: seq<Peak>)
    requires multiset(p) == multiset(q)
    ensures SelectedSum(e, p) == SelectedSum(e, q)
    decreases |p|
  {
    if p == [] {
      assert |q| == |multiset(q)| == 0;
    } else {
      var x := p[0];
      assert x in multiset(q);
      var k :| 0 <= k < |q| && q[k] == x;
      RemoveMatching(p, q, k);
      SelectedSumPermutation(e, p[1..], q[..k] + q[k + 1..]);
      SelectedSumSplit(e, q, k);
      assert p == [x] + p[1..];
      SelectedSumAppend(e, [x], p[1..]);
    }
  }

  /** The summed areas do not depend on the order of the peaks in the frame. */
  lemma SumAreaOrderIndependent(p: seq<Peak>, q: seq<Peak>, table: seq<Entry>)
    requires multiset(p) == multiset(q)
    ensures forall i :: 0 <= i < |table| ==> SumArea(p, table)[i].area == SumArea(q, table)[i].area
  {
    forall i | 0 <= i < |table| ensures SumArea(p, table)[i].area == SumArea(q, table)[i].area {
      var e := table[i];
      assert forall x :: x in p <==> x in q by {
        forall x ensures x in p <==> x in q {
          assert x in p <==> x in multiset(p);
          assert x in q <==> x in multiset(q);
        }
      }
      SelectedSumPermutation(e, p, q);
    }
  }

  lemma {:induction false} SelectedAppendOne(e: Entry, peaks: seq<Peak>, p: Peak)
    ensures Selected(e, peaks + [p]) == Selected(e, peaks) + (if Selects(e, p) then [p] else [])
  {
    if peaks == [] {
      assert peaks + [p] == [p];
    } else {
      assert (peaks + [p])[1..] == peaks[1..] + [p];
      SelectedAppendOne(e, peaks[1..], p);
    }
  }

  lemma {:induction false} TotalAreaAppendOne(ps: seq<Peak>, p: Peak)
    ensures TotalArea(ps + [p]) == TotalArea(ps) + AreaOf(p)
  {
    if ps == [] {
      assert ps + [p] == [p];
    } else {
      assert (ps + [p])[1..] == ps[1..] + [p];
      TotalAreaAppendOne(ps[1..], p);
    }
  }

  /** A peak on the window's edge is selected; a peak outside it, on another
      channel, or with a non-numeric retention time changes nothing. */
  lemma WindowEdges(e: Entry, peaks: seq<Peak>, p: Peak)
    ensures Channel(e.detector) == Some(p.detector)
              && (ToNumber(p.rt) == Some(e.rt * LowFactor) || ToNumber(p.rt) == Some(e.rt * HighFactor))
              && e.rt >= 0.0
            ==> MatchEntry(e, peaks + [p]).area.Some?
    ensures !Selects(e, p) ==> MatchEntry(e, peaks + [p]) == MatchEntry(e, peaks)
  {
    SelectedAppendOne(e, peaks, p);
    if !Selects(e, p) {
      assert Selected(e, peaks + [p]) == Selected(e, peaks);
    }
  }

  /** A selected peak whose area is NaN still counts as a match, and adds nothing. */
  lemma NaNAreaCountsButAddsNothing(e: Entry, peaks: seq<Peak>, p: Peak)
    requires Selects(e, p) && ToNumber(p.area).None?
    ensures MatchEntry(e, peaks + [p]).area == Some(ValueOr(MatchEntry(e, peaks).area, 0.0))
  {
    SelectedAppendOne(e, peaks, p);
    TotalAreaAppendOne(Selected(e, peaks), p);
  }

  /** When every peak of the frame carries the run's timestamp, every matched
      row carries it too. */
  lemma MatchedRowsCarryStamp(peaks: seq<Peak>, table: seq<Entry>, stamp: Option<string>)
    requires forall k :: 0 <= k < |peaks| ==> peaks[k].dateTime == stamp
    ensures forall i :: 0 <= i < |table| && SumArea(peaks, table)[i].area.Some? ==> SumArea(peaks, table)[i].dateTime == stamp
  {
  }
}
