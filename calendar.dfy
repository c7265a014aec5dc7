/**
 * UTC calendar arithmetic behind `time.strftime('%Y-%m-%dT%H:%M:%S.000Z',
 * time.gmtime(t))`: epoch seconds to a proleptic Gregorian date and time of day,
 * the fixed-width rendering (the `date-time` production of section 5.6 of
 * RFC 3339, with a literal `.000` fraction and `Z` offset), and its inverse.
 */
module Calendar {
  import opened Wrappers
  import opened Text

  predicate IsLeapYear(y: int) {
    y % 4 == 0 && (y % 100 != 0 || y % 400 == 0)
  }

  function DaysInYear(y: int): int {
    if IsLeapYear(y) then 366 else 365
  }

  function DaysInMonth(y: int, m: int): int
    requires 1 <= m <= 12
  {
    if m == 2 then (if IsLeapYear(y) then 29 else 28)
    else if m == 4 || m == 6 || m == 9 || m == 11 then 30
    else 31
  }

  /** Days from 0000-01-01 to y-01-01 (negative before year 0), in closed form. */
  function DaysBeforeYear(y: int): int {
    365 * y + (y + 3) / 4 - (y + 99) / 100 + (y + 399) / 400
  }

  /** The closed form counts days: each year adds its own length. */
  lemma YearStep(y: int)
    ensures DaysBeforeYear(y + 1) == DaysBeforeYear(y) + DaysInYear(y)
  {
    LeapTermStep(y);
    CenturyTermStep(y);
    QuadCenturyTermStep(y);
    DivisorsNest(y);
  }

  lemma DivisorsNest(y: int)
    ensures y % 400 == 0 ==> y % 100 == 0
    ensures y % 100 == 0 ==> y % 4 == 0
  {
  }

  lemma LeapTermStep(y: int)
    ensures (y + 4) / 4 - (y + 3) / 4 == if y % 4 == 0 then 1 else 0
  {
  }

  lemma CenturyTermStep(y: int)
    ensures (y + 100) / 100 - (y + 99) / 100 == if y % 100 == 0 then 1 else 0
  {
  }

  lemma QuadCenturyTermStep(y: int)
    ensures (y + 400) / 400 - (y + 399) / 400 == if y % 400 == 0 then 1 else 0
  {
  }

  lemma {:induction false} DaysBeforeYearMonotone(a: int, b: int)
    requires a <= b
    ensures DaysBeforeYear(a) + 365 * (b - a) <= DaysBeforeYear(b)
    decreases b - a
  {
    if a < b {
      YearStep(a);
      DaysBeforeYearMonotone(a + 1, b);
    }
  }

  /** Days from January 1 to the first of month `m` (13 stands for the next January). */
  function DaysBeforeMonth(y: int, m: int): int
    requires 1 <= m <= 13
  {
    var cumulative := [0, 31, 59, 90, 120, 151, 181, 212, 243, 273, 304, 334, 365];
    cumulative[m - 1] + (if m > 2 && IsLeapYear(y) then 1 else 0)
  }

  lemma MonthStep(y: int, m: int)
    requires 1 <= m <= 12
    ensures DaysBeforeMonth(y, m + 1) == DaysBeforeMonth(y, m) + DaysInMonth(y, m)
    ensures DaysBeforeMonth(y, 1) == 0 && DaysBeforeMonth(y, 13) == DaysInYear(y)
  {
  }

  /** One 400-year cycle has 146097 days and ends where it began in the leap-year pattern. */
  lemma CycleStep(y: int)
    ensures DaysBeforeYear(y + 400) == DaysBeforeYear(y) + 146097
    ensures IsLeapYear(y + 400) == IsLeapYear(y)
  {
    assert (y + 400 + 3) / 4 == (y + 3) / 4 + 100;
    assert (y + 400 + 99) / 100 == (y + 99) / 100 + 4;
    assert (y + 400 + 399) / 400 == (y + 399) / 400 + 1;
  }

  /** Every era has the same 146097 days and the same leap years. */
  lemma {:induction false} EraShift(era: int, yoe: int)
    ensures DaysBeforeYear(400 * era + yoe) == 146097 * era + DaysBeforeYear(yoe)
    ensures IsLeapYear(400 * era + yoe) == IsLeapYear(yoe)
    ensures DaysInYear(400 * era + yoe) == DaysInYear(yoe)
    decreases if era < 0 then -era else era
  {
    if era > 0 {
      EraShift(era - 1, yoe);
      CycleStep(400 * (era - 1) + yoe);
    } else if era < 0 {
      EraShift(era + 1, yoe);
      CycleStep(400 * era + yoe);
    }
  }

  datatype Date = Date(year: int, month: int, day: int)

  predicate ValidDate(d: Date) {
    1 <= d.month <= 12 && 1 <= d.day <= DaysInMonth(d.year, d.month)
  }

  /** Day 0 is 1970-01-01. */
  const EpochDay: int := 719528

  /** Days since 1970-01-01, counted as whole years, whole months and days. */
  function DaysFromCivil(d: Date): int
    requires ValidDate(d)
  {
    DaysBeforeYear(d.year) + DaysBeforeMonth(d.year, d.month) + d.day - 1 - EpochDay
  }

  /** The year of era holding day-of-era `doe`, searched upwards from `k`. */
  function YearOfEra(doe: int, k: int): (yoe: int)
    requires 0 <= k <= 399 && DaysBeforeYear(k) <= doe < 146097
    ensures k <= yoe <= 399 && DaysBeforeYear(yoe) <= doe < DaysBeforeYear(yoe + 1)
    decreases 399 - k
  {
    if k == 399 || doe < DaysBeforeYear(k + 1) then k else YearOfEra(doe, k + 1)
  }

  /** The month holding day-of-year `doy`, searched upwards from `m`. */
  function MonthOfYear(y: int, doy: int, m: int): (r: int)
    requires 1 <= m <= 12 && DaysBeforeMonth(y, m) <= doy < DaysInYear(y)
    ensures m <= r <= 12 && DaysBeforeMonth(y, r) <= doy < DaysBeforeMonth(y, r + 1)
    decreases 12 - m
  {
    if m == 12 || doy < DaysBeforeMonth(y, m + 1) then m else MonthOfYear(y, doy, m + 1)
  }

  lemma EraSplit(n: int)
    ensures n == 146097 * (n / 146097) + n % 146097 && 0 <= n % 146097 < 146097
  {
  }

  /** A year and a day's zero-based offset in it. */
  datatype YearDay = YearDay(year: int, dayOfYear: int)

  /**
   * The year holding day `z` since 1970-01-01 and the day's offset in it:
   * whole 400-year eras first, then the year within the era.
   */
  function YearOfDay(z: int): (r: YearDay)
    ensures DaysBeforeYear(r.year) + r.dayOfYear == z + EpochDay && 0 <= r.dayOfYear < DaysInYear(r.year)
  {
    var n := z + EpochDay;
    var era := n / 146097;
    var doe := n % 146097;
    EraSplit(n);
    YearInEra(n, era, doe)
  }

  /** The year holding day `doe` of era `era`, day `n` since 0000-01-01. */
  function YearInEra(n: int, era: int, doe: int): (r: YearDay)
    requires n == 146097 * era + doe && 0 <= doe < 146097
    ensures DaysBeforeYear(r.year) + r.dayOfYear == n && 0 <= r.dayOfYear < DaysInYear(r.year)
  {
    var yoe := YearOfEra(doe, 0);
    EraYear(n, era, yoe, doe);
    YearDay(400 * era + yoe, doe - DaysBeforeYear(yoe))
  }

  /** A day within year `yoe` of era 0 lies in year `yoe` of every other era, at the same offset. */
  lemma EraYear(n: int, era: int, yoe: int, doe: int)
    requires n == 146097 * era + doe
    requires DaysBeforeYear(yoe) <= doe < DaysBeforeYear(yoe + 1)
    ensures var r := YearDay(400 * era + yoe, doe - DaysBeforeYear(yoe));
      DaysBeforeYear(r.year) + r.dayOfYear == n && 0 <= r.dayOfYear < DaysInYear(r.year)
  {
    YearStep(yoe);
    EraShift(era, yoe);
  }

  /** The calendar date of day `z` since 1970-01-01 (the date part of `gmtime`). */
  function CivilFromDays(z: int): (d: Date)
    ensures ValidDate(d) && DaysFromCivil(d) == z
  {
    var YearDay(y, doy) := YearOfDay(z);
    var m := MonthOfYear(y, doy, 1);
    MonthStep(y, m);
    Date(y, m, doy - DaysBeforeMonth(y, m) + 1)
  }

  /** A valid date lies in its year: between that year's first day and the next's. */
  lemma DateWithinYear(d: Date)
    requires ValidDate(d)
    ensures DaysBeforeYear(d.year) <= DaysFromCivil(d) + EpochDay < DaysBeforeYear(d.year + 1)
  {
    YearStep(d.year);
    MonthStep(d.year, d.month);
    if d.month < 12 {
      MonthsBefore(d.year, d.month + 1, 13);
    }
  }

  lemma {:induction false} MonthsBefore(y: int, m: int, m': int)
    requires 1 <= m <= m' <= 13
    ensures DaysBeforeMonth(y, m) <= DaysBeforeMonth(y, m')
  {
  }

  /** Distinct valid dates fall on distinct days. */
  lemma DaysFromCivilInjective(d: Date, e: Date)
    requires ValidDate(d) && ValidDate(e) && DaysFromCivil(d) == DaysFromCivil(e)
    ensures d == e
  {
    DateWithinYear(d);
    DateWithinYear(e);
    if d.year < e.year {
      DaysBeforeYearMonotone(d.year + 1, e.year);
    } else if e.year < d.year {
      DaysBeforeYearMonotone(e.year + 1, d.year);
    }
    assert d.year == e.year;
    var y := d.year;
    if d.month < e.month {
      MonthStep(y, d.month);
      MonthsBefore(y, d.month + 1, e.month);
    } else if e.month < d.month {
      MonthStep(y, e.month);
      MonthsBefore(y, e.month + 1, d.month);
    }
  }

  /** CivilFromDays inverts DaysFromCivil on every valid date. */
  lemma CivilFromDaysOfDate(d: Date)
    requires ValidDate(d)
    ensures CivilFromDays(DaysFromCivil(d)) == d
  {
    DaysFromCivilInjective(CivilFromDays(DaysFromCivil(d)), d);
  }

  datatype DateTime = DateTime(date: Date, hour: int, minute: int, second: int)

  predicate ValidDateTime(t: DateTime) {
    ValidDate(t.date) && 0 <= t.hour < 24 && 0 <= t.minute < 60 && 0 <= t.second < 60
  }

  const SecondsPerDay: int := 86400

  /** Seconds since 1970-01-01T00:00:00Z (the inverse of `gmtime`, i.e. `calendar.timegm`). */
  function EpochSeconds(t: DateTime): int
    requires ValidDateTime(t)
  {
    DaysFromCivil(t.date) * SecondsPerDay + t.hour * 3600 + t.minute * 60 + t.second
  }

  /** `time.gmtime(t)`: floor division into days, then the date and the time of day. */
  function Gmtime(t: int): (r: DateTime)
    ensures ValidDateTime(r) && EpochSeconds(r) == t
  {
    var days := t / SecondsPerDay;
    var secs := t % SecondsPerDay;
    assert t == days * SecondsPerDay + secs;
    DayAndTime(days, secs)
  }

  /** Day `days` since 1970-01-01 at `secs` seconds past midnight. */
  function DayAndTime(days: int, secs: int): (r: DateTime)
    requires 0 <= secs < SecondsPerDay
    ensures ValidDateTime(r) && EpochSeconds(r) == days * SecondsPerDay + secs
  {
    TimeSplit(secs);
    DateTime(CivilFromDays(days), secs / 3600, secs % 3600 / 60, secs % 60)
  }

  lemma TimeSplit(secs: int)
    requires 0 <= secs < SecondsPerDay
    ensures var h, m, s := secs / 3600, secs % 3600 / 60, secs % 60;
      0 <= h < 24 && 0 <= m < 60 && 0 <= s < 60 && h * 3600 + m * 60 + s == secs
  {
  }

  /** Gmtime inverts EpochSeconds on every valid date and time. */
  lemma GmtimeOfEpochSeconds(t: DateTime)
    requires ValidDateTime(t)
    ensures Gmtime(EpochSeconds(t)) == t
  {
    var s := EpochSeconds(t);
    var secs := t.hour * 3600 + t.minute * 60 + t.second;
    assert s / SecondsPerDay == DaysFromCivil(t.date) && s % SecondsPerDay == secs;
    CivilFromDaysOfDate(t.date);
  }

  /** Timestamps whose UTC year has exactly four digits, 1000-01-01 up to 9999-12-31. */
  const MinFormattable: int := -30610224000
  const MaxFormattable: int := 253402300799

  /** The fixed-width rendering `YYYY-MM-DDTHH:MM:SS.000Z` of a date and time. */
  function FormatIso(t: DateTime): (s: string)
    requires ValidDateTime(t) && 0 <= t.date.year <= 9999
    ensures |s| == 24
  {
    PaddedDigits(t.date.year, 4) + "-" + PaddedDigits(t.date.month, 2) + "-" + PaddedDigits(t.date.day, 2) +
    "T" + PaddedDigits(t.hour, 2) + ":" + PaddedDigits(t.minute, 2) + ":" + PaddedDigits(t.second, 2) +
    ".000Z"
  }

  /**
   * The creation-time string the sidecar extraction produces for `t` epoch seconds;
   * None outside the four-digit years (see the README).
   */
  function FormatUtc(t: int): (r: Option<string>)
    ensures r.Some? <==> MinFormattable <= t <= MaxFormattable
    ensures r.Some? ==> IsoShape(r.value) && ParseIso(r.value) == Some(t)
  {
    var dt := Gmtime(t);
    YearRange(t);
    if 1000 <= dt.date.year <= 9999 then
      FormatParse(dt);
      Some(FormatIso(dt))
    else None
  }

  predicate DigitsAt(s: string, lo: int, hi: int)
    requires 0 <= lo <= hi <= |s|
  {
    forall i :: lo <= i < hi ==> IsDigit(s[i])
  }

  /** The shape `DDDD-DD-DDTDD:DD:DD.000Z`: 24 characters, digits and fixed separators. */
  predicate IsoShape(s: string) {
    |s| == 24 &&
    DigitsAt(s, 0, 4) && s[4] == '-' && DigitsAt(s, 5, 7) && s[7] == '-' && DigitsAt(s, 8, 10) &&
    s[10] == 'T' && DigitsAt(s, 11, 13) && s[13] == ':' && DigitsAt(s, 14, 16) && s[16] == ':' &&
    DigitsAt(s, 17, 19) && s[19..] == ".000Z"
  }

  /** Reads the numeric field s[lo..hi] of a string of the right shape. */
  function Field(s: string, lo: int, hi: int): nat
    requires 0 <= lo <= hi <= |s| && DigitsAt(s, lo, hi)
  {
    DigitsValue(s[lo..hi])
  }

  /** Reads a `YYYY-MM-DDTHH:MM:SS.000Z` string back as epoch seconds, when it names a real instant. */
  function ParseIso(s: string): Option<int> {
    if IsoShape(s) then
      var t := DateTime(Date(Field(s, 0, 4), Field(s, 5, 7), Field(s, 8, 10)),
                        Field(s, 11, 13), Field(s, 14, 16), Field(s, 17, 19));
      if ValidDateTime(t) then Some(EpochSeconds(t)) else None
    else None
  }

  lemma FormatParse(t: DateTime)
    requires ValidDateTime(t) && 0 <= t.date.year <= 9999
    ensures IsoShape(FormatIso(t)) && ParseIso(FormatIso(t)) == Some(EpochSeconds(t))
  {
    var s := FormatIso(t);
    FormatLayout(t);
    PaddedDigitsRoundTrip(t.date.year, 4);
    PaddedDigitsRoundTrip(t.date.month, 2);
    PaddedDigitsRoundTrip(t.date.day, 2);
    PaddedDigitsRoundTrip(t.hour, 2);
    PaddedDigitsRoundTrip(t.minute, 2);
    PaddedDigitsRoundTrip(t.second, 2);
    assert Field(s, 0, 4) == t.date.year && Field(s, 5, 7) == t.date.month && Field(s, 8, 10) == t.date.day;
    assert Field(s, 11, 13) == t.hour && Field(s, 14, 16) == t.minute && Field(s, 17, 19) == t.second;
  }

  /** Where each field of the rendering sits: digits at fixed offsets between fixed separators. */
  lemma FormatLayout(t: DateTime)
    requires ValidDateTime(t) && 0 <= t.date.year <= 9999
    ensures var s := FormatIso(t);
      IsoShape(s) &&
      s[0..4] == PaddedDigits(t.date.year, 4) && s[5..7] == PaddedDigits(t.date.month, 2) &&
      s[8..10] == PaddedDigits(t.date.day, 2) && s[11..13] == PaddedDigits(t.hour, 2) &&
      s[14..16] == PaddedDigits(t.minute, 2) && s[17..19] == PaddedDigits(t.second, 2)
  {
    var s := FormatIso(t);
    var y, mo, d := PaddedDigits(t.date.year, 4), PaddedDigits(t.date.month, 2), PaddedDigits(t.date.day, 2);
    var h, mi, se := PaddedDigits(t.hour, 2), PaddedDigits(t.minute, 2), PaddedDigits(t.second, 2);
    assert s[0..4] == y;
    assert s[5..7] == mo;
    assert s[8..10] == d;
    assert s[11..13] == h;
    assert s[14..16] == mi;
    assert s[17..19] == se;
    assert s[19..] == ".000Z";
  }

  /** The UTC year has four digits exactly on [MinFormattable, MaxFormattable]. */
  lemma YearRange(t: int)
    ensures 1000 <= Gmtime(t).date.year <= 9999 <==> MinFormattable <= t <= MaxFormattable
  {
    var d := Gmtime(t).date;
    var days := t / SecondsPerDay;
    DateWithinYear(d);
    assert DaysBeforeYear(1000) - EpochDay == -354285;
    assert DaysBeforeYear(10000) - EpochDay == 2932897;
    if d.year < 1000 {
      DaysBeforeYearMonotone(d.year + 1, 1000);
    } else {
      DaysBeforeYearMonotone(1000, d.year);
    }
    if d.year > 9999 {
      DaysBeforeYearMonotone(10000, d.year);
    } else {
      DaysBeforeYearMonotone(d.year + 1, 10000);
    }
  }
}
