/** Python's `datetime.datetime` as far as `get_time` uses it: the constructor with its
    range checks, subtracting `timedelta(minutes=n)`, and `strftime('%Y-%m-%d %H:%M:%S')`.
    Time is naive (no time zone), as `datetime.now()` returns it; microseconds are not
    modelled because the format drops them. */
module Clock {
  import opened Base
  import opened Text

  datatype DateTime = DateTime(year: int, month: int, day: int, hour: int, minute: int, second: int)

  predicate IsLeap(y: int)
  {
    y % 4 == 0 && (y % 100 != 0 || y % 400 == 0)
  }

  function DaysInYear(y: int): int
  {
    if IsLeap(y) then 366 else 365
  }

  function DaysInMonth(y: int, m: int): int
    requires 1 <= m <= 12
  {
    if m == 2 then (if IsLeap(y) then 29 else 28)
    else if m == 4 || m == 6 || m == 9 || m == 11 then 30
    else 31
  }

  /** Days in the months of year `y` before month `m`; `m == 13` gives the whole year. */
  function DaysBeforeMonth(y: int, m: int): nat
    requires 1 <= m <= 13
    decreases m
  {
    if m == 1 then 0 else DaysBeforeMonth(y, m - 1) + DaysInMonth(y, m - 1)
  }

  /** Month `m` spans the days between the start of `m` and the start of `m + 1`. */
  lemma DaysBeforeMonthStep(y: int, m: int)
    requires 1 <= m <= 12
    ensures DaysBeforeMonth(y, m) + DaysInMonth(y, m) == DaysBeforeMonth(y, m + 1)
  {
  }

  /** The twelve months make up the year. */
  lemma DaysBeforeMonthYear(y: int)
    ensures DaysBeforeMonth(y, 13) == DaysInYear(y)
  {
    var leap := if IsLeap(y) then 1 else 0;
    assert DaysBeforeMonth(y, 2) == 31;
    assert DaysBeforeMonth(y, 3) == 59 + leap;
    assert DaysBeforeMonth(y, 4) == 90 + leap;
    assert DaysBeforeMonth(y, 5) == 120 + leap;
    assert DaysBeforeMonth(y, 6) == 151 + leap;
    assert DaysBeforeMonth(y, 7) == 181 + leap;
    assert DaysBeforeMonth(y, 8) == 212 + leap;
    assert DaysBeforeMonth(y, 9) == 243 + leap;
    assert DaysBeforeMonth(y, 10) == 273 + leap;
    assert DaysBeforeMonth(y, 11) == 304 + leap;
    assert DaysBeforeMonth(y, 12) == 334 + leap;
  }

  /** The ranges `datetime(...)` accepts; anything outside raises ValueError. */
  predicate Valid(dt: DateTime)
  {
    && 1 <= dt.year <= 9999
    && 1 <= dt.month <= 12
    && 1 <= dt.day <= DaysInMonth(dt.year, dt.month)
    && 0 <= dt.hour < 24
    && 0 <= dt.minute < 60
    && 0 <= dt.second < 60
  }

  /** CPython reads each `datetime` field as a C `int` before checking its range. */
  const IntMax: int := 0x7FFF_FFFF

  predicate FitsInt(x: int)
  {
    -IntMax - 1 <= x <= IntMax
  }

  /** Python's `datetime.datetime(y, mo, d, h, mi)`: OverflowError when a field does
      not fit a C `int`, else ValueError when the fields are out of range. */
  function Make(y: int, mo: int, d: int, h: int, mi: int): (r: Result<DateTime>)
    ensures r.Ok? <==> Valid(DateTime(y, mo, d, h, mi, 0))
    ensures r.Ok? ==> Valid(r.value) && r.value.second == 0
    ensures r.Err? ==> (r.error == OverflowError <==> !(FitsInt(y) && FitsInt(mo) && FitsInt(d) && FitsInt(h) && FitsInt(mi)))
    ensures r.Err? ==> r.error == OverflowError || r.error == ValueError
  {
    var dt := DateTime(y, mo, d, h, mi, 0);
    if !(FitsInt(y) && FitsInt(mo) && FitsInt(d) && FitsInt(h) && FitsInt(mi)) then Err(OverflowError)
    else if Valid(dt) then Ok(dt) else Err(ValueError)
  }

  // ---- a minute counter from 0001-01-01 00:00 --------------------------------------

  /** Days from 0001-01-01 to the first day of year `y`. */
  function DaysBeforeYear(y: int): nat
    requires y >= 1
    decreases y
  {
    if y == 1 then 0 else DaysBeforeYear(y - 1) + DaysInYear(y - 1)
  }

  function DayNumber(dt: DateTime): nat
    requires Valid(dt)
  {
    DaysBeforeYear(dt.year) + DaysBeforeMonth(dt.year, dt.month) + dt.day - 1
  }

  /** Whole minutes from 0001-01-01 00:00 to `dt` (seconds are not counted). */
  function MinuteNumber(dt: DateTime): nat
    requires Valid(dt)
  {
    DayNumber(dt) * 1440 + dt.hour * 60 + dt.minute
  }

  /** The year that holds day `n` counted from the first day of year `y`, and the
      day's index within that year. */
  function YearOfDay(n: nat, y: int): (r: (int, nat))
    requires y >= 1
    ensures r.0 >= y && r.1 < DaysInYear(r.0)
    ensures DaysBeforeYear(r.0) + r.1 == DaysBeforeYear(y) + n
    decreases n
  {
    if n < DaysInYear(y) then (y, n) else YearOfDay(n - DaysInYear(y), y + 1)
  }

  /** The month and day of month that hold day `n` of year `y`, counted from the
      first day of month `m`. */
  function MonthOfDay(y: int, n: nat, m: int): (r: (int, int))
    requires 1 <= m <= 12 && n < DaysInYear(y) - DaysBeforeMonth(y, m)
    ensures m <= r.0 <= 12 && 1 <= r.1 <= DaysInMonth(y, r.0)
    ensures DaysBeforeMonth(y, r.0) + r.1 - 1 == DaysBeforeMonth(y, m) + n
    decreases 12 - m
  {
    DaysBeforeMonthStep(y, m);
    DaysBeforeMonthYear(y);
    if n < DaysInMonth(y, m) then (m, n + 1) else MonthOfDay(y, n - DaysInMonth(y, m), m + 1)
  }

  /** The date and time `t` minutes after 0001-01-01 00:00, with seconds `second`. */
  function FromMinuteNumber(t: nat, second: int): (dt: DateTime)
    requires 0 <= second < 60
    ensures dt.year >= 1 && dt.second == second
    ensures dt.year <= 9999 ==> Valid(dt) && MinuteNumber(dt) == t
  {
    var (y, rem) := YearOfDay(t / 1440, 1);
    var (mo, d) := MonthOfDay(y, rem, 1);
    DateTime(y, mo, d, (t % 1440) / 60, t % 60, second)
  }

  /** A later year starts after the whole of an earlier one. */
  lemma {:induction false} DaysBeforeYearGrows(y1: int, y2: int)
    requires 1 <= y1 < y2
    ensures DaysBeforeYear(y1) + DaysInYear(y1) <= DaysBeforeYear(y2)
    decreases y2
  {
    if y1 < y2 - 1 {
      DaysBeforeYearGrows(y1, y2 - 1);
    }
  }

  /** Counting forward from year `y0` to a day of year `y` finds that year and day. */
  lemma {:induction false} YearOfDayFinds(y0: int, y: int, r: nat)
    requires 1 <= y0 <= y && r < DaysInYear(y)
    ensures DaysBeforeYear(y) - DaysBeforeYear(y0) >= 0
    ensures YearOfDay(DaysBeforeYear(y) - DaysBeforeYear(y0) + r, y0) == (y, r)
    decreases y - y0
  {
    if y0 < y {
      DaysBeforeYearGrows(y0, y);
      YearOfDayFinds(y0 + 1, y, r);
    }
  }

  /** Counting forward from the first day of the year to a day of month `m` finds that
      month and day. */
  lemma MonthOfDayFinds(y: int, m: int, d: int)
    requires 1 <= m <= 12 && 1 <= d <= DaysInMonth(y, m)
    ensures DaysBeforeMonth(y, m) + d - 1 < DaysInYear(y)
    ensures MonthOfDay(y, DaysBeforeMonth(y, m) + d - 1, 1) == (m, d)
  {
    DaysBeforeMonthStep(y, m);
    DaysBeforeMonthGrows(y, m + 1, 13);
    DaysBeforeMonthYear(y);
    var r := MonthOfDay(y, DaysBeforeMonth(y, m) + d - 1, 1);
    DayOfYearUnique(y, r.0, r.1, m, d);
  }

  /** A day of the year lies in exactly one month: month and day of month are determined
      by the day's index in the year. */
  lemma DayOfYearUnique(y: int, m1: int, d1: int, m2: int, d2: int)
    requires 1 <= m1 <= 12 && 1 <= d1 <= DaysInMonth(y, m1)
    requires 1 <= m2 <= 12 && 1 <= d2 <= DaysInMonth(y, m2)
    requires DaysBeforeMonth(y, m1) + d1 == DaysBeforeMonth(y, m2) + d2
    ensures m1 == m2 && d1 == d2
  {
    if m1 < m2 {
      DaysBeforeMonthStep(y, m1);
      DaysBeforeMonthGrows(y, m1 + 1, m2);
    } else if m2 < m1 {
      DaysBeforeMonthStep(y, m2);
      DaysBeforeMonthGrows(y, m2 + 1, m1);
    }
  }

  /** Later months start later. */
  lemma {:induction false} DaysBeforeMonthGrows(y: int, m1: int, m2: int)
    requires 1 <= m1 <= m2 <= 13
    ensures DaysBeforeMonth(y, m1) <= DaysBeforeMonth(y, m2)
    decreases m2 - m1
  {
    if m1 < m2 {
      DaysBeforeMonthGrows(y, m1, m2 - 1);
    }
  }

  lemma DivMod1440(q: nat, r: nat)
    requires r < 1440
    ensures (q * 1440 + r) / 1440 == q && (q * 1440 + r) % 1440 == r
  {
  }

  lemma DivMod60(q: nat, r: nat)
    requires r < 60
    ensures (q * 60 + r) / 60 == q && (q * 60 + r) % 60 == r
  {
  }

  /** Every valid date and time is the one its minute number names. */
  lemma MinuteNumberRoundTrip(dt: DateTime)
    requires Valid(dt)
    ensures FromMinuteNumber(MinuteNumber(dt), dt.second) == dt
  {
    var t := MinuteNumber(dt);
    var within := dt.hour * 60 + dt.minute;
    DivMod1440(DayNumber(dt), within);
    DivMod60(dt.hour, dt.minute);
    assert t % 60 == dt.minute by {
      assert t == (DayNumber(dt) * 24 + dt.hour) * 60 + dt.minute;
      DivMod60(DayNumber(dt) * 24 + dt.hour, dt.minute);
    }
    MonthOfDayFinds(dt.year, dt.month, dt.day);
    var rem := DaysBeforeMonth(dt.year, dt.month) + dt.day - 1;
    YearOfDayFinds(1, dt.year, rem);
  }

  /** Two valid datetimes with the same minute number and seconds are equal. */
  lemma MinuteNumberInjective(a: DateTime, b: DateTime)
    requires Valid(a) && Valid(b) && a.second == b.second
    requires MinuteNumber(a) == MinuteNumber(b)
    ensures a == b
  {
    MinuteNumberRoundTrip(a);
    MinuteNumberRoundTrip(b);
  }

  /** Python's `now - timedelta(minutes=n)`: OverflowError when the result would fall
      before year 1. The seconds of `now` are kept. */
  function MinusMinutes(now: DateTime, n: nat): (r: Result<DateTime>)
    requires Valid(now)
    ensures r.Err? <==> n > MinuteNumber(now)
    ensures r.Ok? ==> Valid(r.value) && r.value.second == now.second
    ensures r.Ok? ==> MinuteNumber(r.value) == MinuteNumber(now) - n
  {
    if n > MinuteNumber(now) then Err(OverflowError)
    else
      var t := MinuteNumber(now) - n;
      var dt := FromMinuteNumber(t, now.second);
      EarlierYearBound(now, t);
      Ok(dt)
  }

  /** A minute number not after `now`'s falls in a year not after `now`'s. */
  lemma EarlierYearBound(now: DateTime, t: nat)
    requires Valid(now) && t <= MinuteNumber(now)
    ensures FromMinuteNumber(t, now.second).year <= now.year
  {
    var y := YearOfDay(t / 1440, 1).0;
    assert DaysBeforeYear(y) <= t / 1440;
    assert t / 1440 <= DayNumber(now);
    assert DaysBeforeMonth(now.year, now.month) + now.day - 1 < DaysInYear(now.year) by {
      MonthOfDayFinds(now.year, now.month, now.day);
    }
    if y > now.year {
      DaysBeforeYearGrows(now.year, y);
    }
  }

  // ---- strftime('%Y-%m-%d %H:%M:%S') -----------------------------------------------

  /** Decimal digits of `n`, left-padded with zeros to at least `width` characters. */
  function Pad(n: nat, width: nat): (r: string)
    ensures AllDigits(r) && |r| >= width
    decreases width
  {
    var s := NatToString(n);
    if |s| >= width then s else "0" + Pad(n, width - 1)
  }

  predicate IsStampChar(c: char)
  {
    IsDigit(c) || c == '-' || c == ' ' || c == ':'
  }

  /** `strftime('%Y-%m-%d %H:%M:%S')`; the year is written as the C library on Linux
      writes `%Y`, without padding. */
  function Format(dt: DateTime): (r: string)
    requires Valid(dt)
    ensures forall i :: 0 <= i < |r| ==> IsStampChar(r[i])
  {
    NatToString(dt.year) + "-" + Pad(dt.month, 2) + "-" + Pad(dt.day, 2) + " "
      + Pad(dt.hour, 2) + ":" + Pad(dt.minute, 2) + ":" + Pad(dt.second, 2)
  }

  /** The value of the digit character `c`. */
  function DigitValue(c: char): nat
    requires IsDigit(c)
  {
    c as int - '0' as int
  }

  /** The two-digit number at positions `i` and `i + 1` of `t`. */
  function TwoDigitsAt(t: string, i: nat): nat
    requires i + 1 < |t| && IsDigit(t[i]) && IsDigit(t[i + 1])
  {
    10 * DigitValue(t[i]) + DigitValue(t[i + 1])
  }

  /** "-MM-DD HH:MM:SS": separators and two-digit fields at their places. */
  predicate IsStampTail(t: string)
  {
    && |t| == 15 && t[0] == '-' && t[3] == '-' && t[6] == ' ' && t[9] == ':' && t[12] == ':'
    && IsDigit(t[1]) && IsDigit(t[2]) && IsDigit(t[4]) && IsDigit(t[5]) && IsDigit(t[7]) && IsDigit(t[8])
    && IsDigit(t[10]) && IsDigit(t[11]) && IsDigit(t[13]) && IsDigit(t[14])
  }

  /** Reads a stamp back: the year is everything before the last fifteen characters,
      which are "-MM-DD HH:MM:SS". */
  function ParseStamp(s: string): Option<DateTime>
  {
    var k := |s| - 15;
    if k >= 1 && AllDigits(s[..k]) && IsStampTail(s[k..]) then
      var t := s[k..];
      Some(DateTime(DigitsValue(s[..k]), TwoDigitsAt(t, 1), TwoDigitsAt(t, 4), TwoDigitsAt(t, 7),
                    TwoDigitsAt(t, 10), TwoDigitsAt(t, 13)))
    else None
  }

  /** A leading zero does not change the value. */
  lemma {:induction false} LeadingZero(x: string)
    requires AllDigits(x)
    ensures AllDigits("0" + x) && DigitsValue("0" + x) == DigitsValue(x)
    decreases |x|
  {
    if |x| > 0 {
      var z := "0" + x;
      assert z[..|z| - 1] == "0" + x[..|x| - 1];
      LeadingZero(x[..|x| - 1]);
    }
  }

  /** Padding keeps the value and makes the text exactly `width` long when the number
      has no more digits than that. */
  lemma {:induction false} PadValue(n: nat, width: nat)
    requires |NatToString(n)| <= width
    ensures |Pad(n, width)| == width && DigitsValue(Pad(n, width)) == n
    decreases width
  {
    NatToStringValue(n);
    if |NatToString(n)| < width {
      PadValue(n, width - 1);
      LeadingZero(Pad(n, width - 1));
    }
  }

  /** A number below 100 is at most two digits long. */
  lemma TwoDigits(n: nat)
    requires n < 100
    ensures |NatToString(n)| <= 2
  {
  }

  /** A number below 100 is padded to its tens digit and its units digit. */
  lemma PadTwo(n: nat)
    requires n < 100
    ensures Pad(n, 2) == [DigitChar(n / 10), DigitChar(n % 10)]
  {
    if n < 10 {
      assert NatToString(n) == [DigitChar(n)];
      assert Pad(n, 1) == [DigitChar(n)];
      assert DigitChar(0) == '0';
    } else {
      assert NatToString(n / 10) == [DigitChar(n / 10)];
      assert NatToString(n) == [DigitChar(n / 10), DigitChar(n % 10)];
    }
  }

  /** The digits of a number below 100 read back as that number. */
  lemma TwoDigitsOf(n: nat, t: string, i: nat)
    requires n < 100 && i + 1 < |t| && t[i] == DigitChar(n / 10) && t[i + 1] == DigitChar(n % 10)
    ensures TwoDigitsAt(t, i) == n
  {
  }

  /** A year and five two-digit fields, put together as `Format` does. */
  lemma StampConcat(y: string, a: string, b: string, c: string, d: string, e: string)
    requires |a| == 2 && |b| == 2 && |c| == 2 && |d| == 2 && |e| == 2
    ensures y + "-" + a + "-" + b + " " + c + ":" + d + ":" + e
         == y + ['-', a[0], a[1], '-', b[0], b[1], ' ', c[0], c[1], ':', d[0], d[1], ':', e[0], e[1]]
  {
    StampTail(a, b, c, d, e);
    var t := "-" + a + "-" + b + " " + c + ":" + d + ":" + e;
    assert y + "-" + a + "-" + b + " " + c + ":" + d + ":" + e == y + t;
  }

  lemma StampTail(a: string, b: string, c: string, d: string, e: string)
    requires |a| == 2 && |b| == 2 && |c| == 2 && |d| == 2 && |e| == 2
    ensures "-" + a + "-" + b + " " + c + ":" + d + ":" + e
         == ['-', a[0], a[1], '-', b[0], b[1], ' ', c[0], c[1], ':', d[0], d[1], ':', e[0], e[1]]
  {
  }

  /** The fifteen characters a stamp holds after the year. */
  function StampTailOf(dt: DateTime): (t: string)
    requires Valid(dt)
    ensures IsStampTail(t)
  {
    ['-', DigitChar(dt.month / 10), DigitChar(dt.month % 10), '-', DigitChar(dt.day / 10), DigitChar(dt.day % 10),
     ' ', DigitChar(dt.hour / 10), DigitChar(dt.hour % 10), ':', DigitChar(dt.minute / 10), DigitChar(dt.minute % 10),
     ':', DigitChar(dt.second / 10), DigitChar(dt.second % 10)]
  }

  /** The stamp of a valid datetime: its year's digits, then the other five fields. */
  lemma FormatSplits(dt: DateTime)
    requires Valid(dt)
    ensures Format(dt) == NatToString(dt.year) + StampTailOf(dt)
  {
    PadTwo(dt.month);
    PadTwo(dt.day);
    PadTwo(dt.hour);
    PadTwo(dt.minute);
    PadTwo(dt.second);
    StampConcat(NatToString(dt.year), Pad(dt.month, 2), Pad(dt.day, 2), Pad(dt.hour, 2), Pad(dt.minute, 2), Pad(dt.second, 2));
  }

  /** A year and a stamp tail read back as their numbers. */
  lemma ParseStampOf(s: string, y: string, t: string)
    requires s == y + t && y != "" && AllDigits(y) && IsStampTail(t)
    ensures ParseStamp(s) == Some(DateTime(DigitsValue(y), TwoDigitsAt(t, 1), TwoDigitsAt(t, 4), TwoDigitsAt(t, 7),
                                           TwoDigitsAt(t, 10), TwoDigitsAt(t, 13)))
  {
    assert s[..|y|] == y && s[|y|..] == t;
  }

  /** The numbers read off a datetime's year digits and stamp tail are its fields. */
  lemma StampFields(dt: DateTime)
    requires Valid(dt)
    ensures var t := StampTailOf(dt);
      DateTime(DigitsValue(NatToString(dt.year)), TwoDigitsAt(t, 1), TwoDigitsAt(t, 4), TwoDigitsAt(t, 7),
               TwoDigitsAt(t, 10), TwoDigitsAt(t, 13)) == dt
  {
    var t := StampTailOf(dt);
    NatToStringValue(dt.year);
    TwoDigitsOf(dt.month, t, 1);
    TwoDigitsOf(dt.day, t, 4);
    TwoDigitsOf(dt.hour, t, 7);
    TwoDigitsOf(dt.minute, t, 10);
    TwoDigitsOf(dt.second, t, 13);
  }

  /** A stamp reads back as the datetime it was written from: year, month, day, hour,
      minute and second, each field at its place. */
  lemma FormatRoundTrip(dt: DateTime)
    requires Valid(dt)
    ensures ParseStamp(Format(dt)) == Some(dt)
  {
    FormatSplits(dt);
    ParseStampOf(Format(dt), NatToString(dt.year), StampTailOf(dt));
    StampFields(dt);
  }

  /** Different datetimes give different stamps. */
  lemma FormatInjective(a: DateTime, b: DateTime)
    requires Valid(a) && Valid(b)
    ensures Format(a) == Format(b) <==> a == b
  {
    FormatRoundTrip(a);
    FormatRoundTrip(b);
  }
}
