/**
 * The two `time.Parse` layouts the scorer uses: "2006-01-02" for the purchase date and
 * "15:04" for the purchase time. A layout with no date in it puts the parsed clock time on
 * January 1 of year 0; on any error Parse returns the zero Time, 00:00 on January 1 of
 * year 1 (UTC).
 */
module Calendar {
  import opened Wrappers
  import opened Text
  import opened Digits

  datatype Date = Date(year: int, month: int, day: int)

  /** Leap years of the proleptic Gregorian calendar. */
  predicate IsLeapYear(y: int) {
    y % 4 == 0 && (y % 100 != 0 || y % 400 == 0)
  }

  function DaysIn(month: int, year: int): (n: int)
    requires 1 <= month <= 12
    ensures 28 <= n <= 31
    ensures n == 29 <==> month == 2 && IsLeapYear(year)
  {
    if month == 2 then (if IsLeapYear(year) then 29 else 28)
    else if month == 4 || month == 6 || month == 9 || month == 11 then 30
    else 31
  }

  predicate IsValidDate(d: Date) {
    1 <= d.month <= 12 && 1 <= d.day <= DaysIn(d.month, d.year)
  }

  /**
   * `time.Parse("2006-01-02", s)`: exactly four digits of year, '-', two digits of month,
   * '-', two digits of day, and nothing after; the month must be 1..12 and the day must
   * exist in that month of that year.
   */
  function ParseDate(s: string): (r: Option<Date>)
    ensures r.Some? ==> IsValidDate(r.value) && 0 <= r.value.year <= 9999
  {
    if |s| == 10 && DigitsIn(s, 0, 4) && s[4] == '-' && DigitsIn(s, 5, 7) && s[7] == '-'
       && DigitsIn(s, 8, 10)
    then
      ValueInBound(s, 0, 4);
      assert Pow10(4) == 10000;
      var d := Date(ValueIn(s, 0, 4), ValueIn(s, 5, 7), ValueIn(s, 8, 10));
      if IsValidDate(d) then Some(d) else None
    else
      None
  }

  /** `Day()` of what Parse returns: the parsed day, or 1, the day of the zero Time. */
  function PurchaseDay(s: string): (day: int)
    ensures 1 <= day <= 31
  {
    match ParseDate(s)
    case Some(d) => d.day
    case None => 1
  }

  /** A date in the layout "2006-01-02". */
  function FormatDate(d: Date): string
    requires 0 <= d.year <= 9999 && 1 <= d.month <= 12 && 1 <= d.day <= 31
  {
    assert Pow10(2) == 100 && Pow10(4) == 10000;
    Fixed(d.year, 4) + "-" + Fixed(d.month, 2) + "-" + Fixed(d.day, 2)
  }

  /** A text laid out as "2006-01-02" is read field by field, and kept when the date exists. */
  lemma {:induction false} ParseDateFields(s: string, year: nat, month: nat, day: nat)
    requires |s| == 10 && DigitsIn(s, 0, 4) && s[4] == '-' && DigitsIn(s, 5, 7) && s[7] == '-'
    requires DigitsIn(s, 8, 10)
    requires ValueIn(s, 0, 4) == year && ValueIn(s, 5, 7) == month && ValueIn(s, 8, 10) == day
    ensures ParseDate(s)
      == if IsValidDate(Date(year, month, day)) then Some(Date(year, month, day)) else None
  {
  }

  /** The fields of `x + "-" + y + "-" + z`, for digit strings of widths 4, 2 and 2. */
  lemma {:induction false} DateLayout(x: string, y: string, z: string)
    requires |x| == 4 && |y| == 2 && |z| == 2 && AllDigits(x) && AllDigits(y) && AllDigits(z)
    ensures |x + "-" + y + "-" + z| == 10
    ensures (x + "-" + y + "-" + z)[4] == '-' && (x + "-" + y + "-" + z)[7] == '-'
    ensures DigitsIn(x + "-" + y + "-" + z, 0, 4) && ValueIn(x + "-" + y + "-" + z, 0, 4) == DigitsValue(x)
    ensures DigitsIn(x + "-" + y + "-" + z, 5, 7) && ValueIn(x + "-" + y + "-" + z, 5, 7) == DigitsValue(y)
    ensures DigitsIn(x + "-" + y + "-" + z, 8, 10) && ValueIn(x + "-" + y + "-" + z, 8, 10) == DigitsValue(z)
  {
    var s := x + "-" + y + "-" + z;
    assert s == [] + x + ("-" + y + "-" + z);
    assert s == (x + "-") + y + ("-" + z);
    assert s == (x + "-" + y + "-") + z + [];
    ValueInConcat([], x, "-" + y + "-" + z);
    ValueInConcat(x + "-", y, "-" + z);
    ValueInConcat(x + "-" + y + "-", z, []);
  }

  /** Every date of years 0 to 9999 survives formatting and parsing. */
  lemma {:induction false} ParseFormatDate(d: Date)
    requires IsValidDate(d) && 0 <= d.year <= 9999
    ensures ParseDate(FormatDate(d)) == Some(d)
  {
    assert Pow10(2) == 100 && Pow10(4) == 10000;
    FixedValue(d.year, 4);
    FixedValue(d.month, 2);
    FixedValue(d.day, 2);
    DateLayout(Fixed(d.year, 4), Fixed(d.month, 2), Fixed(d.day, 2));
    ParseDateFields(Fixed(d.year, 4) + "-" + Fixed(d.month, 2) + "-" + Fixed(d.day, 2),
      d.year, d.month, d.day);
  }

  /** Parse accepts nothing but the canonical spelling of the date it returns. */
  lemma {:induction false} FormatParseDate(s: string)
    requires ParseDate(s).Some?
    ensures FormatDate(ParseDate(s).value) == s
  {
    ValueInSlice(s, 0, 4);
    ValueInSlice(s, 5, 7);
    ValueInSlice(s, 8, 10);
    FixedOfDigitsValue(s[0..4]);
    FixedOfDigitsValue(s[5..7]);
    FixedOfDigitsValue(s[8..10]);
    assert s == s[0..4] + "-" + s[5..7] + "-" + s[8..10];
  }

  /**
   * `time.Parse("15:04", s)`, as minutes after midnight: an hour of one or two digits
   * (layout element "15" is not fixed-width), ':', a minute of exactly two digits, and
   * nothing after; the hour must be below 24 and the minute below 60.
   */
  function ParseClock(s: string): (r: Option<nat>)
    ensures r.Some? ==> r.value < 24 * 60
  {
    if |s| > 0 && IsDigit(s[0]) then
      var w := HourWidth(s);
      if |s| == w + 3 && s[w] == ':' && DigitsIn(s, w + 1, w + 3) then
        var hour, minute := ValueIn(s, 0, w), ValueIn(s, w + 1, w + 3);
        if hour < 24 && minute < 60 then Some(hour * 60 + minute) else None
      else
        None
    else
      None
  }

  /** How many digits the hour takes: two when there are two, else one. */
  function HourWidth(s: string): nat {
    if |s| > 1 && IsDigit(s[1]) then 2 else 1
  }

  /** A text laid out as "15:04" with an hour of `w` digits is read field by field, and kept when in range. */
  lemma {:induction false} ParseClockFields(s: string, w: nat, hour: nat, minute: nat)
    requires 1 <= w == HourWidth(s) && |s| == w + 3 && DigitsIn(s, 0, w) && s[w] == ':'
    requires DigitsIn(s, w + 1, w + 3) && ValueIn(s, 0, w) == hour && ValueIn(s, w + 1, w + 3) == minute
    ensures ParseClock(s) == if hour < 24 && minute < 60 then Some(hour * 60 + minute) else None
  {
  }

  /** The fields of `h + ":" + m`, for a digit string `h` of one or two digits and `m` of two. */
  lemma {:induction false} ClockLayout(h: string, m: string)
    requires 1 <= |h| <= 2 && |m| == 2 && AllDigits(h) && AllDigits(m)
    ensures HourWidth(h + ":" + m) == |h| && |h + ":" + m| == |h| + 3 && (h + ":" + m)[|h|] == ':'
    ensures DigitsIn(h + ":" + m, 0, |h|) && ValueIn(h + ":" + m, 0, |h|) == DigitsValue(h)
    ensures DigitsIn(h + ":" + m, |h| + 1, |h| + 3)
    ensures ValueIn(h + ":" + m, |h| + 1, |h| + 3) == DigitsValue(m)
  {
    var s := h + ":" + m;
    assert s == [] + h + (":" + m);
    assert s == (h + ":") + m + [];
    ValueInConcat([], h, ":" + m);
    ValueInConcat(h + ":", m, []);
  }

  /** A time spelled with a one- or two-digit hour and a two-digit minute, in range, is read as `hour * 60 + minute`. */
  lemma {:induction false} ParseClockPlain(h: string, m: string)
    requires 1 <= |h| <= 2 && |m| == 2 && AllDigits(h) && AllDigits(m)
    requires DigitsValue(h) < 24 && DigitsValue(m) < 60
    ensures ParseClock(h + ":" + m) == Some(DigitsValue(h) * 60 + DigitsValue(m))
  {
    ClockLayout(h, m);
    ParseClockFields(h + ":" + m, |h|, DigitsValue(h), DigitsValue(m));
  }

  /** Minutes after midnight in the layout "15:04". */
  function FormatClock(t: nat): string
    requires t < 24 * 60
  {
    assert Pow10(2) == 100;
    Fixed(t / 60, 2) + ":" + Fixed(t % 60, 2)
  }

  /** Every time of day survives formatting and parsing. */
  lemma {:induction false} ParseFormatClock(t: nat)
    requires t < 24 * 60
    ensures ParseClock(FormatClock(t)) == Some(t)
  {
    assert Pow10(2) == 100;
    FixedValue(t / 60, 2);
    FixedValue(t % 60, 2);
    ParseClockPlain(Fixed(t / 60, 2), Fixed(t % 60, 2));
  }

  /** A single-digit hour is accepted as well. */
  lemma {:induction false} ParseShortHourClock(t: nat)
    requires t < 10 * 60
    ensures ParseClock(Fixed(t / 60, 1) + ":" + Fixed(t % 60, 2)) == Some(t)
  {
    assert Pow10(1) == 10 && Pow10(2) == 100;
    FixedValue(t / 60, 1);
    FixedValue(t % 60, 2);
    ParseClockPlain(Fixed(t / 60, 1), Fixed(t % 60, 2));
  }

  /** An accepted time is an hour of `HourWidth(s)` digits, ':', and a minute of two digits, both in range. */
  lemma {:induction false} ClockParts(s: string)
    requires ParseClock(s).Some?
    ensures |s| == HourWidth(s) + 3 && 1 <= HourWidth(s) <= 2
    ensures AllDigits(s[0..HourWidth(s)]) && AllDigits(s[HourWidth(s) + 1..|s|])
    ensures s == s[0..HourWidth(s)] + ":" + s[HourWidth(s) + 1..|s|]
    ensures DigitsValue(s[0..HourWidth(s)]) < 24 && DigitsValue(s[HourWidth(s) + 1..|s|]) < 60
    ensures ParseClock(s).value
      == DigitsValue(s[0..HourWidth(s)]) * 60 + DigitsValue(s[HourWidth(s) + 1..|s|])
  {
    var w := HourWidth(s);
    assert DigitsIn(s, 0, w);
    ValueInSlice(s, 0, w);
    ValueInSlice(s, w + 1, |s|);
    assert s == s[0..w] + ":" + s[w + 1..|s|];
  }

  /** Parse accepts no spelling of a time other than these two. */
  lemma {:induction false} ParseClockSpellings(s: string, t: nat)
    requires ParseClock(s) == Some(t)
    ensures t < 24 * 60
    ensures s == FormatClock(t) || (t < 10 * 60 && s == Fixed(t / 60, 1) + ":" + Fixed(t % 60, 2))
  {
    ClockParts(s);
    var w := HourWidth(s);
    var h, m := s[0..w], s[w + 1..|s|];
    var hour, minute := DigitsValue(h), DigitsValue(m);
    ClockDivMod(hour, minute);
    assert t / 60 == hour && t % 60 == minute;
    FixedOfDigitsValue(h);
    FixedOfDigitsValue(m);
    assert s == Fixed(hour, w) + ":" + Fixed(minute, 2);
    assert w == 1 ==> hour < 10 by {
      assert Pow10(1) == 10;
    }
  }

  lemma {:induction false} ClockDivMod(hour: nat, minute: nat)
    requires minute < 60
    ensures (hour * 60 + minute) / 60 == hour && (hour * 60 + minute) % 60 == minute
  {
  }

  /** Minutes from 0000-01-01 00:00, the day a parsed clock time falls on, to the zero Time 0001-01-01 00:00: year 0 has 366 days. */
  const ZeroTimeMinutes: int := 366 * 24 * 60

  /** The instant Parse returns for the purchase time, in minutes after 0000-01-01 00:00. */
  function PurchaseInstant(s: string): (t: int)
    ensures t >= 0
    ensures t < 24 * 60 <==> ParseClock(s).Some?
  {
    match ParseClock(s)
    case Some(t) => t
    case None => ZeroTimeMinutes
  }

  /** `time.Parse("15:04", "14:00")`, the start of the afternoon window. */
  const WindowStart: int := 14 * 60

  /** `time.Parse("15:04", "16:00")`, the end of the afternoon window. */
  const WindowEnd: int := 16 * 60

  /** The two window ends are what Parse makes of "14:00" and "16:00". */
  lemma {:induction false} WindowEnds()
    ensures PurchaseInstant("14:00") == WindowStart
    ensures PurchaseInstant("16:00") == WindowEnd
  {
    assert FormatClock(WindowStart) == "14:00";
    assert FormatClock(WindowEnd) == "16:00";
    ParseFormatClock(WindowStart);
    ParseFormatClock(WindowEnd);
  }

  /** `t.After(start) && t.Before(end)`: strictly inside the window. */
  predicate InAfternoonWindow(t: int)
    ensures InAfternoonWindow(t) ==> 0 <= t < 24 * 60
  {
    WindowStart < t < WindowEnd
  }
}
