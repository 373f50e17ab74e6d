/** `calculate_conc`: areas are turned into concentrations through the linear
    calibration curves, the run's timestamp is parsed and moved 20 minutes
    back, and the rows are pivoted into one row of concentrations keyed by
    that timestamp. */
module Concentration {
  import opened Options
  import opened Calibration
  import opened Matching
  import opened Calendar

  /** The key of the pivoted row: the shifted timestamp, or the raw text when
      the `date_time` column did not parse (and no shift was applied). */
  datatype Stamp = Shifted(at: DateTime) | Unparsed(text: string)

  /** One pivoted row: concentration (ppb) per compound. */
  datatype ConcRow = ConcRow(dateTime: Stamp, conc: map<string, real>)

  /** The compound column of the input frame. */
  function Names(rows: seq<AreaRow>): (names: seq<string>)
    ensures |names| == |rows|
    ensures forall i :: 0 <= i < |rows| ==> names[i] == rows[i].compound
  {
    seq(|rows|, i requires 0 <= i < |rows| => rows[i].compound)
  }

  /** The first table index at or after `from` whose compound is `c`. */
  function EntryFrom(table: seq<Entry>, c: string, from: nat): (r: Option<nat>)
    ensures r.Some? ==> from <= r.value < |table| && table[r.value].compound == c
    ensures r.Some? ==> forall j :: from <= j < r.value ==> table[j].compound != c
    ensures r.None? ==> forall j :: from <= j < |table| ==> table[j].compound != c
    decreases |table| - from
  {
    if from >= |table| then None
    else if table[from].compound == c then Some(from)
    else EntryFrom(table, c, from + 1)
  }

  /** `calibration_data.index[calibration_data['Compound'] == compound][0]`. */
  function EntryIndex(table: seq<Entry>, c: string): Option<nat> {
    EntryFrom(table, c, 0)
  }

  /** `(area - y_int) / slope`; a NaN area gives NaN, and so (as infinity or
      NaN) does a zero slope. */
  function Invert(area: Option<real>, e: Entry): (r: Option<real>)
    ensures r.Some? <==> area.Some? && e.slope != 0.0
    ensures r.Some? ==> r.value * e.slope + e.yInt == area.value
  {
    if area.None? || e.slope == 0.0 then None
    else Some((area.value - e.yInt) / e.slope)
  }

  /** The calibration compounds that name no input row: the columns the
      zero-fill loop creates. */
  function ZeroFilled(rows: seq<AreaRow>, table: seq<Entry>): (names: seq<string>)
    ensures forall n :: n in names <==>
      (exists k :: 0 <= k < |table| && table[k].compound == n) && n !in Names(rows)
  {
    if table == [] then []
    else
      var rest := ZeroFilled(rows, table[1..]);
      assert forall k :: 1 <= k < |table| ==> table[k] == table[1..][k - 1];
      (if table[0].compound in Names(rows) then [] else [table[0].compound]) + rest
  }

  /** The last row before `n` whose compound is `c`. */
  function LastIndex(rows: seq<AreaRow>, c: string, n: nat): (r: Option<nat>)
    requires n <= |rows|
    ensures r.Some? ==> r.value < n && rows[r.value].compound == c
    ensures r.Some? ==> forall j :: r.value < j < n ==> rows[j].compound != c
    ensures r.None? ==> forall j :: 0 <= j < n ==> rows[j].compound != c
  {
    if n == 0 then None
    else if rows[n - 1].compound == c then Some(n - 1)
    else LastIndex(rows, c, n - 1)
  }

  /** Reference definition of a compound's concentration once the first `n`
      rows are processed: the curve of the first table entry of that name,
      applied to the area of the last row of that name. */
  function ConcentrationOf(rows: seq<AreaRow>, table: seq<Entry>, c: string, n: nat): Option<real>
    requires n <= |rows|
  {
    match LastIndex(rows, c, n)
    case None => None
    case Some(j) =>
      match EntryIndex(table, c)
      case None => None
      case Some(k) => Invert(rows[j].area, table[k])
  }

  /** The `Concentration_ppb` column after the first `n` iterations of the
      loop over (compound, area) pairs: each iteration whose compound is in
      the table writes its value into every row of that compound. A compound
      outside the table is never written, and rows of one compound always
      hold the same value. */
  function Assigned(rows: seq<AreaRow>, table: seq<Entry>, n: nat): (cs: seq<Option<real>>)
    requires n <= |rows|
    ensures |cs| == |rows|
    ensures forall i :: 0 <= i < |rows| && EntryIndex(table, rows[i].compound).None? ==> cs[i].None?
    ensures forall i, j :: 0 <= i < |rows| && 0 <= j < |rows| && rows[i].compound == rows[j].compound ==> cs[i] == cs[j]
  {
    if n == 0 then seq(|rows|, i => None)
    else
      var previous := Assigned(rows, table, n - 1);
      var c := rows[n - 1].compound;
      match EntryIndex(table, c)
      case None => previous
      case Some(k) =>
        var value := Invert(rows[n - 1].area, table[k]);
        seq(|rows|, i requires 0 <= i < |rows| => if rows[i].compound == c then value else previous[i])
  }

  /** Processing row `n - 1` changes the reference value of its own compound
      only. */
  lemma ConcentrationStep(rows: seq<AreaRow>, table: seq<Entry>, c: string, n: nat)
    requires 0 < n <= |rows|
    ensures rows[n - 1].compound != c ==> ConcentrationOf(rows, table, c, n) == ConcentrationOf(rows, table, c, n - 1)
    ensures rows[n - 1].compound == c ==>
      var k := EntryIndex(table, c);
      ConcentrationOf(rows, table, c, n) == if k.None? then None else Invert(rows[n - 1].area, table[k.value])
  {
  }

  lemma {:induction false} AssignedLastWins(rows: seq<AreaRow>, table: seq<Entry>, n: nat)
    requires n <= |rows|
    ensures forall i :: 0 <= i < |rows| ==> Assigned(rows, table, n)[i] == ConcentrationOf(rows, table, rows[i].compound, n)
  {
    if n > 0 {
      AssignedLastWins(rows, table, n - 1);
      forall i | 0 <= i < |rows| ensures Assigned(rows, table, n)[i] == ConcentrationOf(rows, table, rows[i].compound, n) {
        ConcentrationStep(rows, table, rows[i].compound, n);
      }
    }
  }

  /** The finished `Concentration_ppb` column. For each row it holds the
      concentration of its compound by the first table entry of that name,
      computed from the area of the LAST row of that name (a later row
      overwrites all earlier rows of the same compound). */
  function Concentrations(rows: seq<AreaRow>, table: seq<Entry>): (cs: seq<Option<real>>)
    ensures |cs| == |rows|
    ensures forall i :: 0 <= i < |rows| ==> cs[i] == ConcentrationOf(rows, table, rows[i].compound, |rows|)
  {
    AssignedLastWins(rows, table, |rows|);
    Assigned(rows, table, |rows|)
  }

  /** Row `i` survives the pivot under `key`: it carries that timestamp and
      a non-NaN concentration. */
  predicate Keyed(rows: seq<AreaRow>, cs: seq<Option<real>>, key: string, i: nat)
    requires |cs| == |rows|
  {
    i < |rows| && rows[i].dateTime == Some(key) && cs[i].Some?
  }

  /** `to_datetime` succeeds on the whole column: every non-null `date_time`
      either parses or is a NaT spelling. */
  predicate AllStampsConvert(rows: seq<AreaRow>) {
    forall i :: 0 <= i < |rows| && rows[i].dateTime.Some? ==>
      Parse(rows[i].dateTime.value).Some? || IsNaTText(rows[i].dateTime.value)
  }

  /** A row with timestamp text `key` keeps its key through the pivot, which
      drops NaT keys: it is lost only when the column was converted and
      `key` became NaT. Unconverted texts, NaT spellings included, stay. */
  predicate Survives(rows: seq<AreaRow>, key: string) {
    !(AllStampsConvert(rows) && IsNaTText(key))
  }

  /** Row `i` reaches the pivot: it has a timestamp that survives and a
      non-NaN concentration. */
  predicate Pivoted(rows: seq<AreaRow>, cs: seq<Option<real>>, i: nat)
    requires |cs| == |rows|
  {
    i < |rows| && rows[i].dateTime.Some? && cs[i].Some? && Survives(rows, rows[i].dateTime.value)
  }

  function FirstDated(rows: seq<AreaRow>, cs: seq<Option<real>>, from: nat): (r: Option<nat>)
    requires |cs| == |rows|
    ensures r.Some? ==> from <= r.value && Pivoted(rows, cs, r.value)
    ensures r.Some? ==> forall j: nat :: from <= j < r.value ==> !Pivoted(rows, cs, j)
    ensures r.None? ==> forall j: nat :: from <= j ==> !Pivoted(rows, cs, j)
    decreases |rows| - from
  {
    if from >= |rows| then None
    else if Pivoted(rows, cs, from) then Some(from)
    else FirstDated(rows, cs, from + 1)
  }

  /** The `date_time` text of the run: that of the first row the pivot keeps,
      one with a surviving timestamp and a concentration. */
  function RunKey(rows: seq<AreaRow>, table: seq<Entry>): (r: Option<string>)
    ensures r.None? <==> forall i: nat :: !Pivoted(rows, Concentrations(rows, table), i)
    ensures r.Some? ==> Survives(rows, r.value) && exists i: nat :: Keyed(rows, Concentrations(rows, table), r.value, i)
  {
    var cs := Concentrations(rows, table);
    match FirstDated(rows, cs, 0)
    case None => None
    case Some(i) =>
      assert Keyed(rows, cs, rows[i].dateTime.value, i);
      Some(rows[i].dateTime.value)
  }

  /** The values the pivot collects from the first `n` rows under `key`. */
  function Collect(rows: seq<AreaRow>, cs: seq<Option<real>>, key: string, n: nat): (m: map<string, real>)
    requires |cs| == |rows| && n <= |rows|
    ensures forall c :: c in m <==> exists i: nat :: i < n && Keyed(rows, cs, key, i) && rows[i].compound == c
    ensures forall c :: c in m ==> exists i: nat :: i < n && Keyed(rows, cs, key, i) && rows[i].compound == c && m[c] == cs[i].value
  {
    if n == 0 then map[]
    else
      var m := Collect(rows, cs, key, n - 1);
      if Keyed(rows, cs, key, n - 1) then m[rows[n - 1].compound := cs[n - 1].value] else m
  }

  /** The pivot key for the run's `date_time` text: shifted when the column
      converted and the text is a date, the raw text when the conversion
      raised. */
  function StampFor(rows: seq<AreaRow>, key: string): (s: Stamp)
    ensures s.Shifted? ==> exists dt :: Parse(key) == Some(dt) && s.at == ShiftBack(dt)
    ensures s.Unparsed? <==> !AllStampsConvert(rows) || Parse(key).None?
    ensures s.Unparsed? ==> s.text == key
  {
    if AllStampsConvert(rows) && Parse(key).Some? then Shifted(ShiftBack(Parse(key).value))
    else Unparsed(key)
  }

  /** Rows that share a compound share their concentration. */
  lemma SameCompoundSameConcentration(rows: seq<AreaRow>, table: seq<Entry>, i: nat, j: nat)
    requires i < |rows| && j < |rows| && rows[i].compound == rows[j].compound
    ensures Concentrations(rows, table)[i] == Concentrations(rows, table)[j]
  {
  }

  lemma CollectValues(rows: seq<AreaRow>, table: seq<Entry>, key: string)
    ensures var cs := Concentrations(rows, table);
      forall i: nat :: Keyed(rows, cs, key, i) ==> Collect(rows, cs, key, |rows|)[rows[i].compound] == cs[i].value
  {
    var cs := Concentrations(rows, table);
    var m := Collect(rows, cs, key, |rows|);
    forall i: nat | Keyed(rows, cs, key, i) ensures m[rows[i].compound] == cs[i].value {
      var j: nat :| j < |rows| && Keyed(rows, cs, key, j) && rows[j].compound == rows[i].compound
                    && m[rows[i].compound] == cs[j].value;
      SameCompoundSameConcentration(rows, table, i, j);
    }
  }

  lemma CollectWithinTable(rows: seq<AreaRow>, table: seq<Entry>, key: string)
    ensures var cs := Concentrations(rows, table);
      forall c :: c in Collect(rows, cs, key, |rows|) ==> exists k :: 0 <= k < |table| && table[k].compound == c
  {
    var cs := Concentrations(rows, table);
    var m := Collect(rows, cs, key, |rows|);
    forall c | c in m ensures exists k :: 0 <= k < |table| && table[k].compound == c {
      var i: nat :| i < |rows| && Keyed(rows, cs, key, i) && rows[i].compound == c;
      var k := EntryIndex(table, c).value;
      assert table[k].compound == c;
    }
  }

  /** `calculate_conc` on one frame. `None` is an empty pivot: no row had
      both a timestamp and a concentration. */
  function CalculateConc(rows: seq<AreaRow>, table: seq<Entry>): (r: Option<ConcRow>)
    ensures r.Some? <==> RunKey(rows, table).Some?
    ensures r.Some? ==> r.value.dateTime == StampFor(rows, RunKey(rows, table).value)
    ensures r.Some? ==> forall c :: c in r.value.conc <==>
      exists i: nat :: Keyed(rows, Concentrations(rows, table), RunKey(rows, table).value, i) && rows[i].compound == c
    ensures r.Some? ==> forall i: nat :: Keyed(rows, Concentrations(rows, table), RunKey(rows, table).value, i) ==>
      r.value.conc[rows[i].compound] == Concentrations(rows, table)[i].value
    ensures r.Some? ==> forall c :: c in r.value.conc ==> exists k :: 0 <= k < |table| && table[k].compound == c
  {
    var cs := Concentrations(rows, table);
    match RunKey(rows, table)
    case None => None
    case Some(key) =>
      CollectValues(rows, table, key);
      CollectWithinTable(rows, table, key);
      Some(ConcRow(StampFor(rows, key), Collect(rows, cs, key, |rows|)))
  }
}
