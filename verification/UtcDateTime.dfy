/**
 `utcDateTimeValueToIso` and `isoToUtcDateTimeValue`, over the time values of section 21.4.1 of
 ECMA-262: milliseconds from 1970 in the proleptic Gregorian calendar.

 The first function sets the fields it matched on a Date, where they overflow into one another, and
 reads them back. `AcceptsExactlyRealInstants` shows that this comparison is the calendar check: the
 month lengths, leap years and ranges. `RoundTripsExactlyInFourDigitYears` relates the two functions.
 */
module UtcDateTime {
  import opened Decimals
  import opened Wrappers

  // ---- Section 21.4.1 of ECMA-262 ----

  const MS_PER_DAY := 86_400_000
  const MS_PER_HOUR := 3_600_000
  const MS_PER_MINUTE := 60_000
  const MS_PER_SECOND := 1_000
  const MAX_TIME := 8_640_000_000_000_000

  predicate IsLeap(year: int) {
    year % 4 == 0 && (year % 100 != 0 || year % 400 == 0)
  }

  function DayFromYear(y: int): int {
    365 * (y - 1970) + (y - 1969) / 4 - (y - 1901) / 100 + (y - 1601) / 400
  }

  function DaysInYear(y: int): int {
    if IsLeap(y) then 366 else 365
  }

  lemma EveryFour(y: int)
    ensures (y - 1968) / 4 == (y - 1969) / 4 + if y % 4 == 0 then 1 else 0
  {
    Divides(y - 1969, 4, if y % 4 == 0 then y / 4 - 493 else y / 4 - 492, if y % 4 == 0 then 3 else y % 4 - 1);
    Divides(y - 1968, 4, y / 4 - 492, y % 4);
  }

  lemma EveryHundred(y: int)
    ensures (y - 1900) / 100 == (y - 1901) / 100 + if y % 100 == 0 then 1 else 0
  {
    Divides(y - 1901, 100, if y % 100 == 0 then y / 100 - 20 else y / 100 - 19,
            if y % 100 == 0 then 99 else y % 100 - 1);
    Divides(y - 1900, 100, y / 100 - 19, y % 100);
  }

  lemma EveryFourHundred(y: int)
    ensures (y - 1600) / 400 == (y - 1601) / 400 + if y % 400 == 0 then 1 else 0
  {
    Divides(y - 1601, 400, if y % 400 == 0 then y / 400 - 5 else y / 400 - 4,
            if y % 400 == 0 then 399 else y % 400 - 1);
    Divides(y - 1600, 400, y / 400 - 4, y % 400);
  }

  lemma LeapRule(y: int)
    ensures y % 400 == 0 ==> y % 100 == 0
    ensures y % 100 == 0 ==> y % 4 == 0
  {
    Divides(y, 100, 4 * (y / 400) + (y % 400) / 100, y % 400 % 100);
    Divides(y, 4, 25 * (y / 100) + (y % 100) / 4, y % 100 % 4);
  }

  lemma DayFromNextYear(y: int)
    ensures DayFromYear(y + 1) == DayFromYear(y) + DaysInYear(y)
  {
    EveryFour(y);
    EveryHundred(y);
    EveryFourHundred(y);
    LeapRule(y);
  }

  /** The year whose first day is the last one not after `day`. */
  function YearFromDay(day: int): (y: int)
    ensures DayFromYear(y) <= day < DayFromYear(y + 1)
  {
    SearchYear(day, if day >= 0 then 1970 else 1969 + day / 365)
  }

  function SearchYear(day: int, y: int): (found: int)
    requires DayFromYear(y) <= day
    ensures DayFromYear(found) <= day < DayFromYear(found + 1)
    decreases day - DayFromYear(y)
  {
    DayFromNextYear(y);
    if day < DayFromYear(y + 1) then y else SearchYear(day, y + 1)
  }

  /** The days of a year before month `m`, counted from 0. */
  function DaysBefore(m: int, leap: bool): int
    requires 0 <= m <= 12
  {
    [0, 31, 59, 90, 120, 151, 181, 212, 243, 273, 304, 334, 365][m] + if leap && m >= 2 then 1 else 0
  }

  function MonthWithin(dayInYear: int, leap: bool): (m: int)
    requires 0 <= dayInYear < DaysBefore(12, leap)
    ensures 0 <= m <= 11 && DaysBefore(m, leap) <= dayInYear < DaysBefore(m + 1, leap)
  {
    if dayInYear < DaysBefore(1, leap) then 0
    else if dayInYear < DaysBefore(2, leap) then 1
    else if dayInYear < DaysBefore(3, leap) then 2
    else if dayInYear < DaysBefore(4, leap) then 3
    else if dayInYear < DaysBefore(5, leap) then 4
    else if dayInYear < DaysBefore(6, leap) then 5
    else if dayInYear < DaysBefore(7, leap) then 6
    else if dayInYear < DaysBefore(8, leap) then 7
    else if dayInYear < DaysBefore(9, leap) then 8
    else if dayInYear < DaysBefore(10, leap) then 9
    else if dayInYear < DaysBefore(11, leap) then 10
    else 11
  }

  function DayWithinYear(day: int): (d: int)
    ensures 0 <= d < DaysInYear(YearFromDay(day)) && day == DayFromYear(YearFromDay(day)) + d
  {
    DayFromNextYear(YearFromDay(day));
    day - DayFromYear(YearFromDay(day))
  }

  function MonthFromDay(day: int): (m: int)
    ensures 0 <= m <= 11
  {
    MonthWithin(DayWithinYear(day), IsLeap(YearFromDay(day)))
  }

  function DateFromDay(day: int): int {
    DayWithinYear(day) - DaysBefore(MonthFromDay(day), IsLeap(YearFromDay(day))) + 1
  }

  /** Months beyond the year and days beyond the month overflow. */
  function MakeDay(year: int, month: int, date: int): int {
    var y := year + month / 12;
    DayFromYear(y) + DaysBefore(month % 12, IsLeap(y)) + date - 1
  }

  function MakeTime(hour: int, minute: int, second: int, ms: int): int {
    hour * MS_PER_HOUR + minute * MS_PER_MINUTE + second * MS_PER_SECOND + ms
  }

  function MakeDate(day: int, time: int): int {
    day * MS_PER_DAY + time
  }

  function Day(t: int): int {
    t / MS_PER_DAY
  }

  function HourFromTime(t: int): int {
    t / MS_PER_HOUR % 24
  }

  function MinuteFromTime(t: int): int {
    t / MS_PER_MINUTE % 60
  }

  function SecondFromTime(t: int): int {
    t / MS_PER_SECOND % 60
  }

  function MsFromTime(t: int): int {
    t % MS_PER_SECOND
  }

  // ---- The calendar ----

  /** Fields as they are written: the month counts from 1. */
  datatype Fields = Fields(year: int, month: int, day: int, hour: int, minute: int, second: int, millis: int)

  function DaysInMonth(year: int, month: int): int
    requires 1 <= month <= 12
  {
    match month
    case 2 => if IsLeap(year) then 29 else 28
    case 4 => 30
    case 6 => 30
    case 9 => 30
    case 11 => 30
    case _ => 31
  }

  /** A date and time of day that exist. */
  predicate IsReal(f: Fields) {
    && 1 <= f.month <= 12 && 1 <= f.day <= DaysInMonth(f.year, f.month)
    && 0 <= f.hour < 24 && 0 <= f.minute < 60 && 0 <= f.second < 60 && 0 <= f.millis < 1000
  }

  /** What the getters of a Date read. */
  function FieldsOf(t: int): Fields {
    Fields(YearFromDay(Day(t)), MonthFromDay(Day(t)) + 1, DateFromDay(Day(t)),
           HourFromTime(t), MinuteFromTime(t), SecondFromTime(t), MsFromTime(t))
  }

  /** What setting the fields on a Date gives. */
  function TimeOf(f: Fields): int {
    MakeDate(Day(MakeDate(MakeDay(f.year, f.month - 1, f.day), 0)), MakeTime(f.hour, f.minute, f.second, f.millis))
  }

  lemma MonthLength(year: int, month: int)
    requires 1 <= month <= 12
    ensures DaysBefore(month, IsLeap(year)) == DaysBefore(month - 1, IsLeap(year)) + DaysInMonth(year, month)
  {}

  lemma {:induction false} YearsIncrease(y: int, z: int)
    requires y <= z
    ensures DayFromYear(y) <= DayFromYear(z)
    decreases z - y
  {
    if y < z {
      YearsIncrease(y, z - 1);
      DayFromNextYear(z - 1);
    }
  }

  lemma YearIsUnique(day: int, y: int)
    requires DayFromYear(y) <= day < DayFromYear(y + 1)
    ensures YearFromDay(day) == y
  {
    hide DayFromYear, YearFromDay;
    var found := YearFromDay(day);
    if found < y {
      YearsIncrease(found + 1, y);
    } else if y < found {
      YearsIncrease(y + 1, found);
    }
  }

  lemma MonthsIncrease(m: int, n: int, leap: bool)
    requires 0 <= m <= n <= 12
    ensures DaysBefore(m, leap) <= DaysBefore(n, leap)
  {}

  /** What is read back is always a real date and time. */
  lemma ReadsReal(t: int)
    ensures IsReal(FieldsOf(t))
  {
    var day := Day(t);
    MonthLength(YearFromDay(day), MonthFromDay(day) + 1);
  }

  lemma MonthIsUnique(dayInYear: int, leap: bool, m: int)
    requires 0 <= m <= 11 && 0 <= dayInYear < DaysBefore(12, leap)
    requires DaysBefore(m, leap) <= dayInYear < DaysBefore(m + 1, leap)
    ensures MonthWithin(dayInYear, leap) == m
  {
    var found := MonthWithin(dayInYear, leap);
    if found < m {
      MonthsIncrease(found + 1, m, leap);
    } else if m < found {
      MonthsIncrease(m + 1, found, leap);
    }
  }

  lemma DayWithoutOverflow(y: int, m: int, date: int)
    requires 0 <= m < 12
    ensures MakeDay(y, m, date) == DayFromYear(y) + DaysBefore(m, IsLeap(y)) + date - 1
  {}

  lemma DateInYear(y: int, m: int, date: int)
    requires 1 <= m <= 12 && 1 <= date <= DaysInMonth(y, m)
    ensures 0 <= DaysBefore(m - 1, IsLeap(y)) + date - 1 < DaysInYear(y)
  {
    MonthLength(y, m);
    MonthsIncrease(0, m - 1, IsLeap(y));
    MonthsIncrease(m, 12, IsLeap(y));
  }

  lemma DayInYear(y: int, day: int)
    requires DayFromYear(y) <= day < DayFromYear(y) + DaysInYear(y)
    ensures YearFromDay(day) == y && DayWithinYear(day) == day - DayFromYear(y)
  {
    DayFromNextYear(y);
    YearIsUnique(day, y);
  }

  lemma DatePlaced(y: int, m: int, date: int, day: int)
    requires 1 <= m <= 12 && 1 <= date <= DaysInMonth(y, m)
    requires YearFromDay(day) == y && DayWithinYear(day) == DaysBefore(m - 1, IsLeap(y)) + date - 1
    ensures MonthFromDay(day) == m - 1 && DateFromDay(day) == date
  {
    MonthLength(y, m);
    DateInYear(y, m, date);
    MonthIsUnique(DayWithinYear(day), IsLeap(y), m - 1);
  }

  /** A real date is read back from the day it was made into. */
  lemma RealDayReadsBack(y: int, m: int, date: int, day: int)
    requires 1 <= m <= 12 && 1 <= date <= DaysInMonth(y, m) && day == MakeDay(y, m - 1, date)
    ensures YearFromDay(day) == y && MonthFromDay(day) == m - 1 && DateFromDay(day) == date
  {
    DayWithoutOverflow(y, m - 1, date);
    DateInYear(y, m, date);
    DayInYear(y, day);
    DatePlaced(y, m, date, day);
  }

  /** The divisions of a time value, one unit at a time. */
  lemma TimeParts(t: int)
    ensures t / MS_PER_SECOND == t / 1000 && t / MS_PER_MINUTE == t / 1000 / 60
    ensures t / MS_PER_HOUR == t / 1000 / 60 / 60 && t / MS_PER_DAY == t / 1000 / 60 / 60 / 24
  {
    var s, m, h := t / 1000, t / 1000 / 60, t / 1000 / 60 / 60;
    Divides(t, 60_000, m, s % 60 * 1000 + t % 1000);
    Divides(t, 3_600_000, h, m % 60 * 60_000 + s % 60 * 1000 + t % 1000);
    Divides(t, 86_400_000, h / 24, h % 24 * 3_600_000 + m % 60 * 60_000 + s % 60 * 1000 + t % 1000);
  }

  lemma RealTimeReadsBack(day: int, f: Fields)
    requires IsReal(f)
    ensures var t := MakeDate(day, MakeTime(f.hour, f.minute, f.second, f.millis));
      && Day(t) == day && HourFromTime(t) == f.hour && MinuteFromTime(t) == f.minute
      && SecondFromTime(t) == f.second && MsFromTime(t) == f.millis
  {
    var t := MakeDate(day, MakeTime(f.hour, f.minute, f.second, f.millis));
    TimeParts(t);
    Divides(t, 1000, 86400 * day + 3600 * f.hour + 60 * f.minute + f.second, f.millis);
    Divides(t / 1000, 60, 1440 * day + 60 * f.hour + f.minute, f.second);
    Divides(t / 1000 / 60, 60, 24 * day + f.hour, f.minute);
    Divides(t / 1000 / 60 / 60, 24, day, f.hour);
  }

  /** The midnight that setting a date gives is on that day. */
  lemma Midnight(day: int)
    ensures Day(MakeDate(day, 0)) == day
  {
    Divides(MakeDate(day, 0), 86_400_000, day, 0);
  }

  lemma TimeWithoutOverflow(f: Fields)
    ensures TimeOf(f) == MakeDate(MakeDay(f.year, f.month - 1, f.day), MakeTime(f.hour, f.minute, f.second, f.millis))
  {
    Midnight(MakeDay(f.year, f.month - 1, f.day));
  }

  lemma RealReadsBack(f: Fields)
    requires IsReal(f)
    ensures FieldsOf(TimeOf(f)) == f
  {
    var day := MakeDay(f.year, f.month - 1, f.day);
    TimeWithoutOverflow(f);
    RealDayReadsBack(f.year, f.month, f.day, day);
    RealTimeReadsBack(day, f);
  }

  /** Setting then comparing accepts exactly the dates and times that exist. */
  lemma SetThenCompare(f: Fields)
    ensures FieldsOf(TimeOf(f)) == f <==> IsReal(f)
  {
    if IsReal(f) {
      RealReadsBack(f);
    } else {
      ReadsReal(TimeOf(f));
    }
  }

  /** The time values are those of the calendar: 0 is the beginning of 1970, and this one a leap day of 2000. */
  lemma KnownTimes()
    ensures FieldsOf(0) == Fields(1970, 1, 1, 0, 0, 0, 0)
    ensures FieldsOf(951_868_799_999) == Fields(2000, 2, 29, 23, 59, 59, 999)
  {
    hide FieldsOf, TimeOf, MakeDay;
    KnownDays();
    TimeIs(Fields(1970, 1, 1, 0, 0, 0, 0), 0, 0);
    TimeIs(Fields(2000, 2, 29, 23, 59, 59, 999), 11_016, 86_399_999);
  }

  lemma TimeIs(f: Fields, day: int, time: int)
    requires IsReal(f) && MakeDay(f.year, f.month - 1, f.day) == day
    requires MakeTime(f.hour, f.minute, f.second, f.millis) == time
    ensures FieldsOf(day * 86_400_000 + time) == f
  {
    hide FieldsOf, MakeDay, MakeTime, IsReal;
    RealReadsBack(f);
    TimeWithoutOverflow(f);
  }

  lemma KnownDays()
    ensures MakeDay(1970, 0, 1) == 0 && MakeDay(2000, 1, 29) == 11_016
  {
    hide DayFromYear, MakeDay, DaysBefore, IsLeap;
    KnownYears();
    KnownMonths();
    DayWithoutOverflow(1970, 0, 1);
    DayWithoutOverflow(2000, 1, 29);
  }

  lemma KnownYears()
    ensures DayFromYear(1970) == 0 && DayFromYear(2000) == 10_957
  {}

  lemma KnownMonths()
    ensures DaysBefore(0, IsLeap(1970)) == 0 && DaysBefore(1, IsLeap(2000)) == 31
  {
    hide IsLeap;
  }

  lemma DayReadsBack(day: int)
    ensures MakeDay(YearFromDay(day), MonthFromDay(day), DateFromDay(day)) == day
  {
    DayWithoutOverflow(YearFromDay(day), MonthFromDay(day), DateFromDay(day));
  }

  lemma TimeFromParts(t: int)
    ensures MakeTime(HourFromTime(t), MinuteFromTime(t), SecondFromTime(t), MsFromTime(t)) == t - Day(t) * MS_PER_DAY
  {
    TimeParts(t);
  }

  /** Reading the fields loses nothing. */
  lemma TimeReadsBack(t: int)
    ensures TimeOf(FieldsOf(t)) == t
  {
    DayReadsBack(Day(t));
    Midnight(Day(t));
    TimeFromParts(t);
  }

  // ---- The field string ----

  /** The expression `UTC_FIELD`: digits and separators in fixed places, seconds and milliseconds optional. */
  predicate Matches(v: string) {
    && (|v| == 16 || |v| == 19 || 21 <= |v| <= 23)
    && AllDigits(v[0..4]) && v[4] == '-' && AllDigits(v[5..7]) && v[7] == '-' && AllDigits(v[8..10])
    && v[10] == 'T' && AllDigits(v[11..13]) && v[13] == ':' && AllDigits(v[14..16])
    && (|v| > 16 ==> v[16] == ':' && AllDigits(v[17..19]))
    && (|v| > 19 ==> v[19] == '.' && AllDigits(v[20..]))
  }

  function SecondText(v: string): string
    requires Matches(v)
  {
    if |v| > 16 then v[17..19] else "0"
  }

  function MillisText(v: string): (s: string)
    requires Matches(v)
    ensures |s| == 3 && AllDigits(s)
  {
    PadEnd(if |v| > 19 then v[20..] else "0", 3)
  }

  /** The numbers that are matched. */
  function Parsed(v: string): Fields
    requires Matches(v)
  {
    Fields(Number(v[0..4]), Number(v[5..7]), Number(v[8..10]), Number(v[11..13]), Number(v[14..16]),
           Number(SecondText(v)), Number(MillisText(v)))
  }

  /** The field string with its omitted seconds and milliseconds written out. */
  function Completed(v: string): string {
    if |v| == 16 then v + ":00.000" else if |v| == 19 then v + ".000" else PadEnd(v, 23)
  }

  function WrittenYear(year: int): string {
    if 0 <= year <= 9999 then Pad(year, 4) else if year < 0 then "-" + Pad(-year, 6) else "+" + Pad(year, 6)
  }

  function WrittenDate(f: Fields): string
    requires IsReal(f)
  {
    WrittenYear(f.year) + "-" + Pad(f.month, 2) + "-" + Pad(f.day, 2)
  }

  function WrittenTime(f: Fields): string
    requires IsReal(f)
  {
    Pad(f.hour, 2) + ":" + Pad(f.minute, 2) + ":" + Pad(f.second, 2) + "." + Pad(f.millis, 3)
  }

  /** The fields in the format of section 21.4.1.32 of ECMA-262, without its `Z`. */
  function Written(f: Fields): string
    requires IsReal(f)
  {
    WrittenDate(f) + "T" + WrittenTime(f)
  }

  /** `toISOString` of a Date that is not NaN. */
  function IsoString(t: int): string {
    ReadsReal(t);
    Written(FieldsOf(t)) + "Z"
  }

  lemma Digits(s: string)
    requires AllDigits(s) && 2 <= |s| <= 4
    ensures Pad(Number(s), |s|) == s
    ensures Number(s) < if |s| == 2 then 100 else if |s| == 3 then 1000 else 10000
  {
    PadNumber(s);
    assert PowerOfTen(1) == 10 && PowerOfTen(2) == 100 && PowerOfTen(3) == 1000;
  }

  lemma SecondDigits(v: string)
    requires Matches(v)
    ensures Number(SecondText(v)) < 100
    ensures Pad(Number(SecondText(v)), 2) == if |v| > 16 then v[17..19] else "00"
  {
    if |v| > 16 {
      Digits(v[17..19]);
    } else {
      assert Number("0") == 0 && Pad(0, 1) == "0";
    }
  }

  lemma ParsedDigits(v: string)
    requires Matches(v)
    ensures var f := Parsed(v);
      && f.year <= 9999 && f.month < 100 && f.day < 100 && f.hour < 100 && f.minute < 100 && f.second < 100
      && f.millis < 1000 && Pad(f.year, 4) == v[0..4] && Pad(f.month, 2) == v[5..7] && Pad(f.day, 2) == v[8..10]
      && Pad(f.hour, 2) == v[11..13] && Pad(f.minute, 2) == v[14..16]
      && Pad(f.second, 2) == (if |v| > 16 then v[17..19] else "00") && Pad(f.millis, 3) == MillisText(v)
  {
    hide Pad, Number;
    Digits(v[0..4]);
    Digits(v[5..7]);
    Digits(v[8..10]);
    Digits(v[11..13]);
    Digits(v[14..16]);
    SecondDigits(v);
    Digits(MillisText(v));
  }

  lemma CompletedDate(v: string)
    requires Matches(v)
    ensures |Completed(v)| == 23 && Completed(v)[..10] == v[0..4] + "-" + v[5..7] + "-" + v[8..10]
    ensures Completed(v)[10] == 'T'
  {}

  lemma CompletedTime(v: string)
    requires Matches(v)
    ensures |Completed(v)| == 23
    ensures Completed(v)[11..]
         == v[11..13] + ":" + v[14..16] + ":" + (if |v| > 16 then v[17..19] else "00") + "." + MillisText(v)
  {
    var c := Completed(v);
    assert c[11..16] == v[11..13] + ":" + v[14..16];
    assert c[20..] == MillisText(v);
    CompletedSeconds(v);
    hide Completed, Matches, MillisText;
    assert c[11..] == c[11..16] + c[16..20] + c[20..];
  }

  lemma CompletedSeconds(v: string)
    requires Matches(v)
    ensures Completed(v)[16..20] == ":" + (if |v| > 16 then v[17..19] else "00") + "."
  {
    var c, seconds := Completed(v), if |v| > 16 then v[17..19] else "00";
    if |v| == 16 {
      assert c[16..20] == ":00.";
      assert ":00." == ":" + "00" + ".";
    } else {
      assert c[16] == ':' && c[17] == v[17] && c[18] == v[18] && c[19] == '.';
      assert c[16..20] == [c[16], c[17], c[18], c[19]];
      assert seconds == [v[17], v[18]];
    }
  }

  lemma WritesParsedDate(v: string)
    requires Matches(v) && IsReal(Parsed(v))
    ensures WrittenDate(Parsed(v)) == Completed(v)[..10]
  {
    ParsedDigits(v);
    CompletedDate(v);
  }

  lemma WritesParsedTime(v: string)
    requires Matches(v) && IsReal(Parsed(v))
    ensures WrittenTime(Parsed(v)) == Completed(v)[11..]
  {
    ParsedDigits(v);
    CompletedTime(v);
  }

  /** What is matched is what the numbers are written as. */
  lemma WritesParsed(v: string)
    requires Matches(v) && IsReal(Parsed(v))
    ensures Written(Parsed(v)) == Completed(v)
  {
    WritesParsedDate(v);
    WritesParsedTime(v);
    CompletedDate(v);
    var c := Completed(v);
    assert c == c[..10] + "T" + c[11..];
  }

  // ---- The two functions ----

  /** A Date: its time value, or None where the source has NaN. */
  class UtcDate {
    var time: Option<int>

    constructor (t: int)
      ensures time == if -8_640_000_000_000_000 <= t <= 8_640_000_000_000_000 then Some(t) else None
    {
      time := TimeClip(t);
    }

    method SetUtcFullYear(year: int, month: int, date: int)
      modifies this
      ensures time == TimeClip(MakeDate(MakeDay(year, month, date),
                                        if old(time).Some? then old(time).value % MS_PER_DAY else 0))
    {
      var within := match time case Some(t) => t % MS_PER_DAY case None => 0;
      time := TimeClip(MakeDate(MakeDay(year, month, date), within));
    }

    method SetUtcHours(hour: int, minute: int, second: int, ms: int)
      modifies this
      ensures old(time) == None ==> time == None
      ensures old(time).Some? ==> time == TimeClip(MakeDate(Day(old(time).value), MakeTime(hour, minute, second, ms)))
    {
      if time.Some? {
        time := TimeClip(MakeDate(Day(time.value), MakeTime(hour, minute, second, ms)));
      }
    }
  }

  function TimeClip(t: int): Option<int> {
    if -MAX_TIME <= t <= MAX_TIME then Some(t) else None
  }

  lemma TwoDigitsOverflowDays(year: int, month: int, date: int)
    requires 0 <= year <= 9999 && -1 <= month < 99 && 0 <= date < 100
    ensures -1_000_000 <= MakeDay(year, month, date) <= 4_000_000
  {
    var y := year + month / 12;
    assert -1 <= month / 12 <= 8;
    YearsIncrease(-1, y);
    YearsIncrease(y, 10_007);
    assert -1_000_000 <= DayFromYear(-1) && DayFromYear(10_007) < 3_000_000;
  }

  /** What four and two digits can say. */
  predicate Fits(f: Fields) {
    && 0 <= f.year <= 9999 && 0 <= f.month < 100 && 0 <= f.day < 100
    && 0 <= f.hour < 100 && 0 <= f.minute < 100 && 0 <= f.second < 100 && 0 <= f.millis < 1000
  }

  /** Such fields, real or not, are far from the limits of a time value. */
  lemma NeverClipped(f: Fields)
    requires Fits(f)
    ensures var midnight := MakeDate(MakeDay(f.year, f.month - 1, f.day), 0); TimeClip(midnight) == Some(midnight)
    ensures TimeClip(TimeOf(f)) == Some(TimeOf(f))
  {
    TwoDigitsOverflowDays(f.year, f.month - 1, f.day);
    TimeWithoutOverflow(f);
  }

  const NOT_AN_INSTANT := "A valid UTC instant is required"
  const NOT_A_DATE_TIME := "A valid UTC date and time is required"

  /** The fields set on a Date and read back: its time value, if they all come back. */
  method SetAndCompare(f: Fields) returns (r: Option<int>)
    requires Fits(f)
    ensures r == if IsReal(f) then Some(TimeOf(f)) else None
  {
    hide FieldsOf, IsReal, MakeDay, MakeTime, Day;
    var parsed := new UtcDate(0);
    parsed.SetUtcFullYear(f.year, f.month - 1, f.day);
    ghost var midnight := MakeDate(MakeDay(f.year, f.month - 1, f.day), 0);
    assert parsed.time == Some(midnight) by {
      NeverClipped(f);
    }
    parsed.SetUtcHours(f.hour, f.minute, f.second, f.millis);
    assert parsed.time == Some(TimeOf(f)) by {
      NeverClipped(f);
    }
    SetThenCompare(f);
    r := parsed.time;
    if r.Some? && FieldsOf(r.value) != f {
      r := None;
    }
  }

  /** What `utcDateTimeValueToIso` promises: the string itself, completed, if it names an instant. */
  function ToIso(value: string): Result<string> {
    if Matches(value) && IsReal(Parsed(value)) then Ok(Completed(value) + "Z") else Err(NOT_A_DATE_TIME)
  }

  /** `utcDateTimeValueToIso` */
  method UtcDateTimeValueToIso(value: string) returns (r: Result<string>)
    ensures r == ToIso(value)
  {
    if !Matches(value) {
      return Err(NOT_A_DATE_TIME);
    }
    ParsedDigits(value);
    var parsed := SetAndCompare(Parsed(value));
    if parsed == None {
      return Err(NOT_A_DATE_TIME);
    }
    AcceptedIso(value);
    return Ok(IsoString(parsed.value));
  }

  /** The time an accepted string names is printed as that string. */
  lemma AcceptedIso(value: string)
    requires Matches(value) && IsReal(Parsed(value))
    ensures IsoString(TimeOf(Parsed(value))) == Completed(value) + "Z"
  {
    RealReadsBack(Parsed(value));
    WritesParsed(value);
  }

  /** `isoToUtcDateTimeValue`, of the time value its string is parsed as. */
  function FromTime(parsed: Option<int>): Result<string> {
    match parsed
    case None => Err(NOT_AN_INSTANT)
    case Some(t) => var iso := IsoString(t); Ok(if |iso| <= 23 then iso else iso[..23])
  }

  // ---- The two functions together ----

  /**
   For every string, setting the matched numbers on a Date, comparing what is read back and printing it
   gives the same answer as the calendar rules and the string itself.
   */
  lemma AcceptsExactlyRealInstants(value: string)
    ensures ToIso(value) ==
      if Matches(value) && FieldsOf(TimeOf(Parsed(value))) == Parsed(value) then Ok(IsoString(TimeOf(Parsed(value))))
      else Err(NOT_A_DATE_TIME)
  {
    if Matches(value) {
      SetThenCompare(Parsed(value));
      if IsReal(Parsed(value)) {
        AcceptedIso(value);
      }
    }
  }

  lemma WrittenParts(f: Fields)
    requires IsReal(f) && 0 <= f.year <= 9999
    ensures var w := Written(f);
      && |w| == 23 && w[0..4] == Pad(f.year, 4) && w[5..7] == Pad(f.month, 2) && w[8..10] == Pad(f.day, 2)
      && w[11..13] == Pad(f.hour, 2) && w[14..16] == Pad(f.minute, 2) && w[17..19] == Pad(f.second, 2)
      && w[20..] == Pad(f.millis, 3)
      && w[4] == '-' && w[7] == '-' && w[10] == 'T' && w[13] == ':' && w[16] == ':' && w[19] == '.'
  {
    var date, time := WrittenDate(f), WrittenTime(f);
    assert date[0..4] == Pad(f.year, 4) && date[5..7] == Pad(f.month, 2) && date[8..10] == Pad(f.day, 2);
    assert time[0..2] == Pad(f.hour, 2) && time[3..5] == Pad(f.minute, 2) && time[6..8] == Pad(f.second, 2);
    assert time[9..] == Pad(f.millis, 3);
    var w := Written(f);
    assert w[..10] == date && w[11..] == time;
    assert w[0..4] == date[0..4] && w[5..7] == date[5..7] && w[8..10] == date[8..10];
    assert w[11..13] == time[0..2] && w[14..16] == time[3..5] && w[17..19] == time[6..8] && w[20..] == time[9..];
  }

  /** A real date of a four-digit year is written as a field string of its own numbers. */
  lemma ParsesWritten(f: Fields)
    requires IsReal(f) && 0 <= f.year <= 9999
    ensures Matches(Written(f)) && Parsed(Written(f)) == f && |Written(f)| == 23
  {
    WrittenParts(f);
    assert PowerOfTen(1) == 10 && PowerOfTen(2) == 100 && PowerOfTen(3) == 1000;
    NumberPad(f.year, 4);
    NumberPad(f.month, 2);
    NumberPad(f.day, 2);
    NumberPad(f.hour, 2);
    NumberPad(f.minute, 2);
    NumberPad(f.second, 2);
    NumberPad(f.millis, 3);
  }

  /** The date and time, behind a year as it is given. */
  function WithYear(year: string, f: Fields): string
    requires IsReal(f)
  {
    year + "-" + Pad(f.month, 2) + "-" + Pad(f.day, 2) + "T"
    + Pad(f.hour, 2) + ":" + Pad(f.minute, 2) + ":" + Pad(f.second, 2) + "." + Pad(f.millis, 3)
  }

  /** A date and time of a four-digit year, in full. */
  function InFull(f: Fields): string
    requires IsReal(f) && 0 <= f.year <= 9999
  {
    WithYear(Pad(f.year, 4), f)
  }

  lemma WrittenWithYear(f: Fields)
    requires IsReal(f)
    ensures Written(f) == WithYear(WrittenYear(f.year), f) && |Written(f)| >= 23
    ensures 0 <= f.year <= 9999 ==> |Written(f)| == 23
  {
    hide Pad, IsReal;
  }

  /** How a time is shown: in full, or with a sign and six digits for the year and then cut to 23 characters. */
  lemma ShownExactly(t: int)
    ensures var f := FieldsOf(t);
      && IsReal(f)
      && (0 <= f.year <= 9999 ==> FromTime(Some(t)) == Ok(InFull(f)))
      && (f.year < 0 ==> FromTime(Some(t)) == Ok(WithYear("-" + Pad(-f.year, 6), f)[..23]))
      && (f.year > 9999 ==> FromTime(Some(t)) == Ok(WithYear("+" + Pad(f.year, 6), f)[..23]))
  {
    ReadsReal(t);
    var w := Written(FieldsOf(t));
    WrittenWithYear(FieldsOf(t));
    hide Written, WithYear, IsReal, FieldsOf, Pad;
    assert (w + "Z")[..23] == w[..23];
  }

  /** What may be left out at the end of a text of this length: seconds, milliseconds, or their last zeros. */
  function LeftOut(length: nat): Option<string> {
    match length
    case 16 => Some(":00.000")
    case 19 => Some(".000")
    case 21 => Some("00")
    case 22 => Some("0")
    case 23 => Some("")
    case _ => None
  }

  lemma InFullIsWritten(f: Fields)
    requires IsReal(f) && 0 <= f.year <= 9999
    ensures InFull(f) == Written(f)
  {
    hide WithYear, Written, IsReal;
    WrittenWithYear(f);
  }

  /** Completing writes out what was left out. */
  lemma CompletedIs(value: string)
    requires LeftOut(|value|).Some?
    ensures Completed(value) == value + LeftOut(|value|).value
  {
    if |value| >= 21 {
      assert forall k :: |value| <= k < 23 ==> PadEnd(value, 23)[k] == (value + LeftOut(|value|).value)[k];
    }
  }

  lemma CompletedMatches(value: string)
    requires LeftOut(|value|).Some? && Matches(Completed(value))
    ensures Matches(value)
  {
    CompletedIs(value);
    var c := Completed(value);
    assert forall k :: 0 <= k < |value| ==> c[k] == value[k];
    DigitsWithin(c, value, 0, 4);
    DigitsWithin(c, value, 5, 7);
    DigitsWithin(c, value, 8, 10);
    DigitsWithin(c, value, 11, 13);
    DigitsWithin(c, value, 14, 16);
    if |value| > 16 {
      DigitsWithin(c, value, 17, 19);
    }
    if |value| > 19 {
      MillisWithin(c, value);
    }
    hide LeftOut, Completed;
  }

  lemma MillisWithin(c: string, value: string)
    requires 20 <= |value| <= |c| && AllDigits(c[20..])
    requires forall k :: 0 <= k < |value| ==> c[k] == value[k]
    ensures AllDigits(value[20..])
  {
    assert forall k :: 0 <= k < |value[20..]| ==> value[20..][k] == c[20..][k];
  }

  lemma DigitsWithin(c: string, value: string, from: nat, to: nat)
    requires from <= to <= |value| <= |c| && AllDigits(c[from..to])
    requires forall k :: 0 <= k < |value| ==> c[k] == value[k]
    ensures AllDigits(value[from..to])
  {
    assert c[from..to] == value[from..to];
  }

  /** Reading the completed string gives the same numbers. */
  lemma CompletedParses(value: string)
    requires Matches(value)
    ensures Matches(Completed(value)) && Parsed(Completed(value)) == Parsed(value)
  {
    CompletedParts(value);
    var c := Completed(value);
    hide Completed, Number;
    assert Matches(c);
    assert MillisText(c) == c[20..];
    assert SecondText(c) == c[17..19];
    OmittedSeconds();
  }

  lemma OmittedSeconds()
    ensures Number("00") == Number("0")
  {}

  lemma CompletedParts(value: string)
    requires Matches(value)
    ensures var c := Completed(value);
      && |c| == 23 && c[0..4] == value[0..4] && c[5..7] == value[5..7] && c[8..10] == value[8..10]
      && c[11..13] == value[11..13] && c[14..16] == value[14..16]
      && c[17..19] == (if |value| > 16 then value[17..19] else "00") && c[20..] == MillisText(value)
      && c[4] == '-' && c[7] == '-' && c[10] == 'T' && c[13] == ':' && c[16] == ':' && c[19] == '.'
  {
    CompletedStart(value);
    CompletedSeconds(value);
    CompletedEnd(value);
    hide Completed, Matches, MillisText;
    var c, seconds := Completed(value), if |value| > 16 then value[17..19] else "00";
    assert c[16] == c[16..20][0] && c[19] == c[16..20][3] && c[17..19] == c[16..20][1..3];
    assert (":" + seconds + ".")[1..3] == seconds;
  }

  lemma CompletedStart(value: string)
    requires Matches(value)
    ensures var c := Completed(value);
      && |c| == 23 && c[0..4] == value[0..4] && c[5..7] == value[5..7] && c[8..10] == value[8..10]
      && c[11..13] == value[11..13] && c[14..16] == value[14..16]
      && c[4] == '-' && c[7] == '-' && c[10] == 'T' && c[13] == ':'
  {
    var c := Completed(value);
    hide AllDigits;
    assert |c| == 23 && forall k :: 0 <= k < 16 ==> c[k] == value[k];
  }

  lemma CompletedEnd(value: string)
    requires Matches(value)
    ensures |Completed(value)| == 23 && Completed(value)[20..] == MillisText(value)
  {}

  /**
   The strings accepted are the dates and times there are, in the years 0 to 9999, in full or without seconds,
   milliseconds or their last zeros; and the result is what was meant, in full.
   */
  lemma AcceptsAbbreviations(value: string)
    ensures ToIso(value).Ok? <==>
      && LeftOut(|value|).Some?
      && exists f: Fields :: IsReal(f) && 0 <= f.year <= 9999 && value + LeftOut(|value|).value == InFull(f)
    ensures ToIso(value).Ok? ==> ToIso(value) == Ok(value + LeftOut(|value|).value + "Z")
  {
    hide InFull, Parsed, IsReal;
    if ToIso(value).Ok? {
      var f := Parsed(value);
      assert LeftOut(|value|).Some?;
      CompletedIs(value);
      ParsedDigits(value);
      WritesParsed(value);
      InFullIsWritten(f);
    } else if LeftOut(|value|).Some? {
      forall f: Fields | IsReal(f) && 0 <= f.year <= 9999 && value + LeftOut(|value|).value == InFull(f)
        ensures false
      {
        CompletedIs(value);
        InFullIsWritten(f);
        ParsesWritten(f);
        CompletedMatches(value);
        CompletedParses(value);
      }
    }
  }

  /** A time is shown and accepted back unchanged exactly when its year has four digits. */
  lemma RoundTripsExactlyInFourDigitYears(t: int)
    ensures FromTime(Some(t)).Ok?
    ensures ToIso(FromTime(Some(t)).value) == Ok(IsoString(t)) <==> 0 <= FieldsOf(t).year <= 9999
  {
    var f := FieldsOf(t);
    ReadsReal(t);
    if 0 <= f.year <= 9999 {
      ParsesWritten(f);
      assert IsoString(t)[..23] == Written(f);
    } else {
      var shown := FromTime(Some(t)).value;
      assert shown[0] == IsoString(t)[0] == WrittenYear(f.year)[0];
      assert Matches(shown) ==> shown[0..4][0] == shown[0];
    }
  }

  /** An accepted string names one time, which is shown as the string completed, and that is accepted again. */
  lemma AcceptedStringsRoundTrip(value: string)
    requires ToIso(value).Ok?
    ensures ToIso(value) == Ok(IsoString(TimeOf(Parsed(value))))
    ensures FromTime(Some(TimeOf(Parsed(value)))) == Ok(Completed(value))
    ensures ToIso(Completed(value)) == ToIso(value)
    ensures |value| == 23 ==> Completed(value) == value
  {
    var f := Parsed(value);
    AcceptedIso(value);
    RealReadsBack(f);
    ParsedDigits(value);
    ParsesWritten(f);
    WritesParsed(value);
    assert (Completed(value) + "Z")[..23] == Completed(value);
  }
}
