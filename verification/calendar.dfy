/** Timestamps in the format `%Y-%m-%d %H-%M-%S`, on the proleptic Gregorian
    calendar, and the fixed 20-minute backward shift `calculate_conc` applies. */
module Calendar {
  import opened Options
  import opened Strings

  datatype DateTime = DateTime(year: nat, month: nat, day: nat, hour: nat, minute: nat, second: nat)

  predicate IsLeapYear(y: nat) {
    y % 4 == 0 && (y % 100 != 0 || y % 400 == 0)
  }

  function DaysInMonth(y: nat, m: nat): nat {
    if m == 2 then (if IsLeapYear(y) then 29 else 28)
    else if m == 4 || m == 6 || m == 9 || m == 11 then 30
    else 31
  }

  function DaysInYear(y: nat): nat {
    if IsLeapYear(y) then 366 else 365
  }

  /** A date and time Python's `datetime` accepts (four-digit years). */
  predicate Valid(dt: DateTime) {
    && 1 <= dt.year <= 9999
    && 1 <= dt.month <= 12
    && 1 <= dt.day <= DaysInMonth(dt.year, dt.month)
    && dt.hour < 24 && dt.minute < 60 && dt.second < 60
  }

  /** Days from 0001-01-01 to January 1 of year `y`. */
  function DaysBeforeYear(y: nat): nat {
    if y <= 1 then 0 else DaysBeforeYear(y - 1) + DaysInYear(y - 1)
  }

  /** Days from January 1 to the first of month `m` in year `y`. */
  function DaysBeforeMonth(y: nat, m: nat): nat {
    if m <= 1 then 0 else DaysBeforeMonth(y, m - 1) + DaysInMonth(y, m - 1)
  }

  /** Seconds elapsed since 0001-01-01 00:00:00: the reference against which
      the shift is stated. */
  function Seconds(dt: DateTime): int {
    var days := DaysBeforeYear(dt.year) + DaysBeforeMonth(dt.year, dt.month) + dt.day - 1;
    ((days * 24 + dt.hour) * 60 + dt.minute) * 60 + dt.second
  }

  lemma DaysBeforeDecember(y: nat)
    ensures DaysBeforeMonth(y, 12) + 31 == DaysInYear(y)
  {
    assert DaysBeforeMonth(y, 2) == 31;
    assert DaysBeforeMonth(y, 3) == 31 + DaysInMonth(y, 2);
    assert DaysBeforeMonth(y, 4) == DaysBeforeMonth(y, 3) + 31;
    assert DaysBeforeMonth(y, 5) == DaysBeforeMonth(y, 4) + 30;
    assert DaysBeforeMonth(y, 6) == DaysBeforeMonth(y, 5) + 31;
    assert DaysBeforeMonth(y, 7) == DaysBeforeMonth(y, 6) + 30;
    assert DaysBeforeMonth(y, 8) == DaysBeforeMonth(y, 7) + 31;
    assert DaysBeforeMonth(y, 9) == DaysBeforeMonth(y, 8) + 31;
    assert DaysBeforeMonth(y, 10) == DaysBeforeMonth(y, 9) + 30;
    assert DaysBeforeMonth(y, 11) == DaysBeforeMonth(y, 10) + 31;
    assert DaysBeforeMonth(y, 12) == DaysBeforeMonth(y, 11) + 30;
  }

  const ShiftMinutes: nat := 20

  /** `Timestamp - Timedelta(minutes=20)`, borrowing from the hour, the day,
      the month and the year as needed. */
  function ShiftBack(dt: DateTime): (r: DateTime)
    requires Valid(dt)
    ensures r.second == dt.second
    ensures Seconds(dt) >= ShiftMinutes * 60 ==> Valid(r) && Seconds(r) == Seconds(dt) - ShiftMinutes * 60
  {
    if dt.minute >= ShiftMinutes then dt.(minute := dt.minute - ShiftMinutes)
    else
      var minute := dt.minute + 60 - ShiftMinutes;
      if dt.hour >= 1 then dt.(hour := dt.hour - 1, minute := minute)
      else if dt.day > 1 then dt.(day := dt.day - 1, hour := 23, minute := minute)
      else if dt.month > 1 then
        dt.(month := dt.month - 1, day := DaysInMonth(dt.year, dt.month - 1), hour := 23, minute := minute)
      else
        DaysBeforeDecember(dt.year - 1);
        DateTime(dt.year - 1, 12, 31, 23, minute, dt.second)
  }

  /** strftime's `%Y-%m-%d %H-%M-%S`. */
  function Render(dt: DateTime): (s: string)
    requires Valid(dt)
    ensures |s| == 19
  {
    Pad(dt.year, 4) + "-" + Pad(dt.month, 2) + "-" + Pad(dt.day, 2) + " "
      + Pad(dt.hour, 2) + "-" + Pad(dt.minute, 2) + "-" + Pad(dt.second, 2)
  }

  /** The separators of the format sit at their fixed positions, and every
      other position holds a digit. */
  predicate WellShaped(s: string) {
    && |s| == 19
    && s[4] == '-' && s[7] == '-' && s[10] == ' ' && s[13] == '-' && s[16] == '-'
    && AllDigits(s[0..4]) && AllDigits(s[5..7]) && AllDigits(s[8..10])
    && AllDigits(s[11..13]) && AllDigits(s[14..16]) && AllDigits(s[17..19])
  }

  /** The texts `to_datetime` turns into NaT instead of rejecting: the empty
      text and pandas' spellings of NaT and NaN. */
  predicate IsNaTText(s: string) {
    s == "" || s == "NaT" || s == "nat" || s == "NAT" || s == "nan" || s == "NaN" || s == "NAN"
  }

  /** `to_datetime(s, format='%Y-%m-%d %H-%M-%S')` for fixed-width fields.
      `None` when the text is no date: either a NaT spelling (`IsNaTText`),
      which pandas turns into NaT, or any other text that does not match or
      names no real date, for which pandas raises `ValueError`. */
  function Parse(s: string): (r: Option<DateTime>)
    ensures r.Some? ==> Valid(r.value)
  {
    if !WellShaped(s) then None
    else
      var dt := DateTime(Value(s[0..4]), Value(s[5..7]), Value(s[8..10]),
                         Value(s[11..13]), Value(s[14..16]), Value(s[17..19]));
      if Valid(dt) then Some(dt) else None
  }

  /** Rendering a date and parsing it back gives the same date. */
  lemma ParseRender(dt: DateTime)
    requires Valid(dt)
    ensures Parse(Render(dt)) == Some(dt)
  {
    var s := Render(dt);
    assert s[0..4] == Pad(dt.year, 4);
    assert s[5..7] == Pad(dt.month, 2);
    assert s[8..10] == Pad(dt.day, 2);
    assert s[11..13] == Pad(dt.hour, 2);
    assert s[14..16] == Pad(dt.minute, 2);
    assert s[17..19] == Pad(dt.second, 2);
    ValueOfPad(dt.year, 4);
    ValueOfPad(dt.month, 2);
    ValueOfPad(dt.day, 2);
    ValueOfPad(dt.hour, 2);
    ValueOfPad(dt.minute, 2);
    ValueOfPad(dt.second, 2);
  }

  /** A text that parses is exactly the rendering of what it parses to. */
  lemma RenderParse(s: string)
    requires Parse(s).Some?
    ensures Render(Parse(s).value) == s
  {
    PadOfValue(s[0..4]);
    PadOfValue(s[5..7]);
    PadOfValue(s[8..10]);
    PadOfValue(s[11..13]);
    PadOfValue(s[14..16]);
    PadOfValue(s[17..19]);
    assert s == s[0..4] + "-" + s[5..7] + "-" + s[8..10] + " " + s[11..13] + "-" + s[14..16] + "-" + s[17..19];
  }

  lemma PadsExample()
    ensures Pad(2024, 4) == "2024" && Pad(3, 2) == "03" && Pad(25, 2) == "25"
    ensures Pad(12, 2) == "12" && Pad(10, 2) == "10" && Pad(52, 2) == "52"
  {
    assert Pad(2, 1) == "2" && Pad(20, 2) == "20" && Pad(202, 3) == "202";
    assert Pad(0, 1) == "0";
    assert Pad(1, 1) == "1";
    assert Pad(5, 1) == "5";
  }

  lemma RenderExample()
    ensures Render(DateTime(2024, 3, 25, 12, 10, 52)) == "2024-03-25 12-10-52"
  {
    PadsExample();
    assert "2024" + "-" + "03" + "-" + "25" + " " + "12" + "-" + "10" + "-" + "52" == "2024-03-25 12-10-52";
  }

  /** The run stamp 2024-03-25 12-10-52 parses to the date it spells. */
  lemma ParseExample()
    ensures Parse("2024-03-25 12-10-52") == Some(DateTime(2024, 3, 25, 12, 10, 52))
  {
    RenderExample();
    ParseRender(DateTime(2024, 3, 25, 12, 10, 52));
  }

  /** 12:10:52 becomes 11:50:52; shifts across a leap day and across a year
      end borrow correctly. */
  lemma ShiftExamples()
    ensures ShiftBack(DateTime(2024, 3, 25, 12, 10, 52)) == DateTime(2024, 3, 25, 11, 50, 52)
    ensures ShiftBack(DateTime(2024, 3, 1, 0, 10, 0)) == DateTime(2024, 2, 29, 23, 50, 0)
    ensures ShiftBack(DateTime(2023, 1, 1, 0, 5, 7)) == DateTime(2022, 12, 31, 23, 45, 7)
  {
  }
}
