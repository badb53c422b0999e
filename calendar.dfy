/** The part of moment-timezone the reminder core relies on, for a zone with a fixed
    UTC+0 offset: instants are integer milliseconds since the Unix epoch, civil dates
    are proleptic Gregorian, and calendar addition follows moment's `add`. */
module Calendar {
  import opened Strings

  /** Milliseconds since 1970-01-01T00:00Z. */
  type Instant = int

  const MsPerSecond: int := 1000
  const MsPerMinute: int := 60 * MsPerSecond
  const MsPerHour: int := 60 * MsPerMinute
  const MsPerDay: int := 24 * MsPerHour

  /** The calendar units `moment.add` is called with. */
  datatype Unit = Year | Month | Week | Day | Hour | Minute

  /** A moment value: a valid instant, or moment's "Invalid date" (whose `valueOf` is NaN). */
  datatype Moment = Valid(ms: Instant) | InvalidDate

  /** A civil date. */
  datatype Date = Date(year: int, month: int, day: int)

  predicate IsLeapYear(y: int) { y % 4 == 0 && (y % 100 != 0 || y % 400 == 0) }

  function DaysInMonth(y: int, m: int): (n: int)
    ensures 28 <= n <= 31
  {
    MonthLength(m, IsLeapYear(y))
  }

  /** The length of month `m` in a year that is a leap year or not. */
  function MonthLength(m: int, leap: bool): int
  {
    if m == 2 then (if leap then 29 else 28)
    else if m == 4 || m == 6 || m == 9 || m == 11 then 30
    else 31
  }

  /** Days since 1970-01-01 of the civil date y-m-d (for 1 <= m <= 12). */
  function DaysFromCivil(y: int, m: int, d: int): int
  {
    var y' := if m <= 2 then y - 1 else y;
    var era := y' / 400;
    var yoe := y' - era * 400;
    var mp := (m + 9) % 12;
    var doy := (153 * mp + 2) / 5 + d - 1;
    var doe := yoe * 365 + yoe / 4 - yoe / 100 + doy;
    era * 146097 + doe - 719468
  }

  /** The civil date of the day `z` days after 1970-01-01: the day is placed in a 400-year
      era that starts on 1 March, then in a century, a four-year cycle and a year of it. */
  function CivilFromDays(z: int): (date: Date)
    ensures 1 <= date.month <= 12 && 1 <= date.day <= 31
  {
    var z' := z + 719468;
    var era := z' / 146097;
    var doe := z' - era * 146097;
    var c := if doe / 36524 < 3 then doe / 36524 else 3;
    var rc := doe - 36524 * c;
    var q := rc / 1461;
    var rq := rc - 1461 * q;
    var yr := if rq / 365 < 3 then rq / 365 else 3;
    var doy := rq - 365 * yr;
    var y := era * 400 + 100 * c + 4 * q + yr;
    var mp := (5 * doy + 2) / 153;
    var d := doy - (153 * mp + 2) / 5 + 1;
    var m := if mp < 10 then mp + 3 else mp - 9;
    Date(if m <= 2 then y + 1 else y, m, d)
  }

  // The two conversions split at the year that starts on 1 March: the lemmas below about
  // them go through these halves.

  /** Days since 1970-01-01 of day `doy` of the year that starts on 1 March of `y`. */
  function DaysOfYear(y: int, doy: int): int
  {
    var era := y / 400;
    var yoe := y - era * 400;
    era * 146097 + yoe * 365 + yoe / 4 - yoe / 100 + doy - 719468
  }

  /** The year of the era and the day of that year of day `doe` (0 to 146096) of a 400-year
      era: the day is placed in a century, a four-year cycle and a year of it. */
  function YearOfEra(doe: int): (yd: (int, int))
    requires 0 <= doe < 146097
    ensures 0 <= yd.0 < 400 && 0 <= yd.1 <= 365
  {
    var c := if doe / 36524 < 3 then doe / 36524 else 3;
    var rc := doe - 36524 * c;
    var q := rc / 1461;
    var rq := rc - 1461 * q;
    var yr := if rq / 365 < 3 then rq / 365 else 3;
    (100 * c + 4 * q + yr, rq - 365 * yr)
  }

  /** The civil date of day `doy` (0 to 365) of the year that starts on 1 March of `y`. */
  function CivilOfYear(y: int, doy: int): (date: Date)
    requires 0 <= doy <= 365
    ensures 1 <= date.month <= 12 && 1 <= date.day <= 31
  {
    var mp := (5 * doy + 2) / 153;
    var d := doy - (153 * mp + 2) / 5 + 1;
    var m := if mp < 10 then mp + 3 else mp - 9;
    Date(if m <= 2 then y + 1 else y, m, d)
  }

  function DayNumber(t: Instant): int { t / MsPerDay }

  function TimeOfDay(t: Instant): (ms: int)
    ensures 0 <= ms < MsPerDay
  {
    t % MsPerDay
  }

  function DateOf(t: Instant): Date { CivilFromDays(DayNumber(t)) }

  /** `moment.weekday()` in the default locale: 0 is Sunday, 1970-01-01 was a Thursday. */
  function Weekday(t: Instant): (w: int)
    ensures 0 <= w < 7
  {
    (DayNumber(t) + 4) % 7
  }

  /** Moving `j` whole days moves the day number by `j` and keeps the time of day. */
  lemma DayShift(t: Instant, j: int)
    ensures DayNumber(t + j * MsPerDay) == DayNumber(t) + j
    ensures TimeOfDay(t + j * MsPerDay) == TimeOfDay(t)
  {
    var q, r := t / MsPerDay, t % MsPerDay;
    assert t + j * MsPerDay == (q + j) * MsPerDay + r;
  }

  /** Each day moves the weekday one step around the week. */
  lemma WeekdayShift(t: Instant, j: int)
    ensures Weekday(t + j * MsPerDay) == (Weekday(t) + j) % 7
  {
    DayShift(t, j);
  }

  /** `add(n, "month")`: the same day of month and time of day `n` months later, the day
      clamped to the length of the target month. */
  function AddMonths(t: Instant, n: int): Instant
  {
    var date := DateOf(t);
    var total := date.year * 12 + (date.month - 1) + n;
    var y := total / 12;
    var m := total % 12 + 1;
    var d := if date.day < DaysInMonth(y, m) then date.day else DaysInMonth(y, m);
    DaysFromCivil(y, m, d) * MsPerDay + TimeOfDay(t)
  }

  /** `moment.add(n, unit)`; in a fixed-offset zone a day is always 24 hours. */
  function Add(t: Instant, n: int, u: Unit): Instant
  {
    if u == Year || u == Month then AddMonths(t, if u == Year then 12 * n else n)
    else t + n * UnitMs(u)
  }

  /** The length of a fixed-length unit in milliseconds. */
  function UnitMs(u: Unit): int
    requires u != Year && u != Month
  {
    match u
    case Week => 7 * MsPerDay
    case Day => MsPerDay
    case Hour => MsPerHour
    case Minute => MsPerMinute
  }

  /** The instant of a civil date-time, as `moment.tz(text, "DD/MM/YYYY HH:mm", tz)` builds
      it: fields out of range give "Invalid date"; 24:00 is midnight of the next day. */
  function FromCivil(day: int, month: int, year: int, hour: int, minute: int): (m: Moment)
    ensures m.Valid? <==>
              1 <= month <= 12 && 1 <= day <= DaysInMonth(year, month)
              && 0 <= minute < 60 && (0 <= hour < 24 || (hour == 24 && minute == 0))
  {
    if month < 1 || month > 12 || day < 1 || day > DaysInMonth(year, month) then InvalidDate
    else if hour < 0 || hour > 24 || (hour == 24 && minute != 0) || minute < 0 || minute > 59 then InvalidDate
    else Valid(DaysFromCivil(year, month, day) * MsPerDay + hour * MsPerHour + minute * MsPerMinute)
  }

  /** moment's `zeroFill(n, width)`: the digits of |n| left-padded with zeros to `width`,
      preceded by `-` when `n` is negative. */
  function ZeroFill(n: int, width: nat): string
  {
    var digits := NatToString(if n < 0 then -n else n);
    (if n < 0 then "-" else "") + Zeros(if |digits| < width then width - |digits| else 0) + digits
  }

  /** A non-negative number zero-filled to a width it fits in is that many digits of
      the same value; a negative one starts with `-`. */
  lemma ZeroFillValue(n: int, width: nat)
    ensures n >= 0 ==> AllDigits(ZeroFill(n, width)) && DigitsValue(ZeroFill(n, width)) == n
    ensures n >= 0 && |NatToString(n)| <= width ==> |ZeroFill(n, width)| == width
    ensures n >= 0 && |NatToString(n)| > width ==> |ZeroFill(n, width)| == |NatToString(n)|
    ensures n < 0 ==> |ZeroFill(n, width)| > 0 && ZeroFill(n, width)[0] == '-'
  {
    if n >= 0 {
      var digits := NatToString(n);
      var k := if |digits| < width then width - |digits| else 0;
      assert ZeroFill(n, width) == Zeros(k) + digits;
      DigitsValueOfNatToString(n);
      LeadingZeros(k, digits);
    }
  }

  /** The three fields of `format("DD/MM/YYYY")`: zero-filled day, month and year. */
  function FormatFields(t: Instant): (string, string, string)
  {
    var date := DateOf(t);
    (ZeroFill(date.day, 2), ZeroFill(date.month, 2), ZeroFill(date.year, 4))
  }

  /** Adding minutes, hours, days and weeks shifts the instant by a fixed number of milliseconds. */
  lemma AddFixedLength(t: Instant, n: int)
    ensures Add(t, n, Minute) == t + n * 60000
    ensures Add(t, n, Hour) == t + n * 3600000
    ensures Add(t, n, Day) == t + n * 86400000
    ensures Add(t, n, Week) == Add(t, 7 * n, Day)
  {
  }

  /** Adding years is adding twelve times as many months. */
  lemma AddYearIsTwelveMonths(t: Instant, n: int)
    ensures Add(t, n, Year) == Add(t, 12 * n, Month)
  {
  }

  /** The instant `n` months after `t`, written with the day number of the target date:
      target month `m2` of year `y2`, the day of month of `t` clamped to that month. */
  lemma AddMonthsDate(t: Instant, n: int, y2: int, m2: int)
    requires 1 <= m2 <= 12
    requires DateOf(t).year * 12 + (DateOf(t).month - 1) + n == y2 * 12 + (m2 - 1)
    ensures AddMonths(t, n)
            == DaysFromCivil(y2, m2, if DateOf(t).day < DaysInMonth(y2, m2) then DateOf(t).day else DaysInMonth(y2, m2)) * MsPerDay
               + TimeOfDay(t)
  {
    var date := DateOf(t);
    var total := date.year * 12 + (date.month - 1) + n;
    assert total / 12 == y2 && total % 12 == m2 - 1;
  }

  // Round trips between day numbers and civil dates.

  /** Leap years repeat every 400 years. */
  lemma LeapInEra(era: int, k: int)
    ensures IsLeapYear(era * 400 + k) == IsLeapYear(k)
  {
    var a := era * 400 + k;
    assert a == 4 * (100 * era + k / 4) + k % 4;
    ModOf4(a, 100 * era + k / 4, k % 4);
    assert a == 100 * (4 * era + k / 100) + k % 100;
    ModOf100(a, 4 * era + k / 100, k % 100);
    assert a == 400 * (era + k / 400) + k % 400;
    ModOf400(a, era + k / 400, k % 400);
  }

  /** The remainders by 4, 100 and 400 of a number written as a multiple plus a remainder. */
  lemma ModOf4(a: int, q: int, r: int)
    requires a == 4 * q + r && 0 <= r < 4
    ensures a % 4 == r
  {
  }

  lemma ModOf100(a: int, q: int, r: int)
    requires a == 100 * q + r && 0 <= r < 100
    ensures a % 100 == r
  {
  }

  lemma ModOf400(a: int, q: int, r: int)
    requires a == 400 * q + r && 0 <= r < 400
    ensures a % 400 == r
  {
  }

  /** The first day of month `mp` of a March-based year (0 is March, 11 is February, and
      12 stands for the next March), as `(153 * mp + 2) / 5` computes it. */
  function MonthStart(mp: int): int
  {
    if mp <= 0 then 0 else if mp == 1 then 31 else if mp == 2 then 61 else if mp == 3 then 92
    else if mp == 4 then 122 else if mp == 5 then 153 else if mp == 6 then 184
    else if mp == 7 then 214 else if mp == 8 then 245 else if mp == 9 then 275
    else if mp == 10 then 306 else if mp == 11 then 337 else 366
  }

  /** `MonthStart` is the closed formula the conversions use. */
  lemma MonthStartFormula(mp: int)
    requires 0 <= mp < 12
    ensures (153 * mp + 2) / 5 == MonthStart(mp)
  {
  }

  /** The month of day `doy` of a March-based year is the one whose first day was last passed. */
  lemma MonthOfDay(doy: int, mp: int)
    requires 0 <= mp < 12 && MonthStart(mp) <= doy < MonthStart(mp + 1)
    ensures (5 * doy + 2) / 153 == mp
  {
    assert 153 * mp <= 5 * doy + 2 < 153 * mp + 153;
  }

  /** The month index of month `m`, and the length of `m` as the gap to the next month start
      (the gap after February always leaves room for a 29th). */
  lemma MonthIndex(m: int, leap: bool)
    requires 1 <= m <= 12
    ensures var mp := (m + 9) % 12;
            && mp == (if m <= 2 then m + 9 else m - 3)
            && MonthStart(mp) + MonthLength(m, leap) == MonthStart(mp + 1) - (if m == 2 && !leap then 1 else 0)
  {
  }

  /** Day `doy` of a March-based year lies in month `(5 * doy + 2) / 153`. */
  lemma DayInMonthOf(doy: int)
    requires 0 <= doy <= 365
    ensures var mp := (5 * doy + 2) / 153;
            0 <= mp < 12 && MonthStart(mp) <= doy < MonthStart(mp + 1)
  {
    var mp := (5 * doy + 2) / 153;
    assert 153 * mp <= 5 * doy + 2 < 153 * mp + 153;
  }

  /** The day of the March-based year of a date, and the month and day read back from it. */
  lemma MonthDayArith(m: int, d: int, leap: bool, doy: int)
    requires 1 <= m <= 12 && 1 <= d <= MonthLength(m, leap)
    requires doy == (153 * ((m + 9) % 12) + 2) / 5 + d - 1
    ensures 0 <= doy <= 365 && (doy == 365 ==> leap)
    ensures var mp := (5 * doy + 2) / 153;
            doy - (153 * mp + 2) / 5 + 1 == d && (if mp < 10 then mp + 3 else mp - 9) == m
  {
    MonthIndex(m, leap);
    var mp := (m + 9) % 12;
    MonthStartFormula(mp);
    MonthOfDay(doy, mp);
  }

  /** The day of the March-based year of a date, and the date read back from that day. */
  lemma MonthDayOfYear(y: int, m: int, d: int, y': int, doy: int)
    requires 1 <= m <= 12 && 1 <= d <= DaysInMonth(y, m)
    requires y' == (if m <= 2 then y - 1 else y) && doy == (153 * ((m + 9) % 12) + 2) / 5 + d - 1
    ensures 0 <= doy <= 365 && (doy == 365 ==> IsLeapYear(y' + 1))
    ensures CivilOfYear(y', doy) == Date(y, m, d)
  {
    MonthDayArith(m, d, IsLeapYear(y), doy);
  }

  /** In a 400-year era, the year before a leap year ends a four-year cycle, and it ends a
      century only at the end of the era. */
  lemma LeapYearOfEra(yoe: int)
    requires 0 <= yoe < 400 && IsLeapYear(yoe + 1)
    ensures yoe % 4 == 3 && (yoe % 100 == 99 ==> yoe == 399)
  {
    assert yoe + 1 == 4 * (yoe / 4) + yoe % 4 + 1;
    if yoe % 100 == 99 {
      assert yoe + 1 == 100 * (yoe / 100 + 1);
    }
  }

  /** Splitting a day of a 400-year era into centuries, four-year cycles and years finds
      the year of the era and the day of that year that built it. */
  lemma EraSplit(yoe: int, doe: int, doy: int)
    requires 0 <= yoe < 400 && 0 <= doy <= 365
    requires doy == 365 ==> IsLeapYear(yoe + 1)
    requires doe == yoe * 365 + yoe / 4 - yoe / 100 + doy
    ensures 0 <= doe < 146097 && YearOfEra(doe) == (yoe, doy)
  {
    var c0, q0, s0 := YearOfEraParts(yoe);
    if doy == 365 {
      LeapYearOfEra(yoe);
    }
    EraSplitDivisions(doe, c0, q0, s0, doy);
  }

  /** A year of an era is a century, a four-year cycle and a year of that cycle. */
  lemma YearOfEraParts(yoe: int) returns (c0: int, q0: int, s0: int)
    requires 0 <= yoe < 400
    ensures 0 <= c0 < 4 && 0 <= q0 < 25 && 0 <= s0 < 4 && yoe == 100 * c0 + 4 * q0 + s0
    ensures yoe / 100 == c0 && yoe / 4 == 25 * c0 + q0 && yoe % 4 == s0 && yoe % 100 == 4 * q0 + s0
  {
    c0 := yoe / 100;
    var r0 := yoe % 100;
    q0, s0 := r0 / 4, r0 % 4;
    assert yoe == 4 * (25 * c0 + q0) + s0;
  }

  /** The divisions of the era split, for a day built from century `c0`, cycle `q0`,
      year `s0` and day `doy`. */
  lemma EraSplitDivisions(doe: int, c0: int, q0: int, s0: int, doy: int)
    requires 0 <= c0 < 4 && 0 <= q0 < 25 && 0 <= s0 < 4 && 0 <= doy <= 365
    requires s0 < 3 ==> doy < 365
    requires 1461 * q0 + 365 * s0 + doy < 36524 || c0 == 3
    requires doe == 36524 * c0 + 1461 * q0 + 365 * s0 + doy
    ensures 0 <= doe < 146097 && YearOfEra(doe) == (100 * c0 + 4 * q0 + s0, doy)
  {
    assert doe / 36524 == c0 || (c0 == 3 && doe / 36524 == 4);
    assert (1461 * q0 + 365 * s0 + doy) / 1461 == q0;
    assert (365 * s0 + doy) / 365 == s0 || (s0 == 3 && doy == 365);
  }

  /** The era and the day of the era of a day number, from any split of it. */
  lemma EraOfDay(z: int, era: int, doe: int)
    requires 0 <= doe < 146097 && z + 719468 == era * 146097 + doe
    ensures CivilFromDays(z) == CivilOfYear(era * 400 + YearOfEra(doe).0, YearOfEra(doe).1)
  {
    assert (z + 719468) / 146097 == era;
    CivilFromDaysHalves(z);
  }

  /** `CivilFromDays` finds the year of the era and the day of that year, then the date. */
  lemma CivilFromDaysHalves(z: int)
    ensures var era := (z + 719468) / 146097;
            var yd := YearOfEra(z + 719468 - era * 146097);
            CivilFromDays(z) == CivilOfYear(era * 400 + yd.0, yd.1)
  {
  }

  /** `DaysFromCivil` counts the day of the March-based year holding the date. */
  lemma DaysFromCivilOfYear(y: int, m: int, d: int)
    ensures DaysFromCivil(y, m, d) == DaysOfYear(if m <= 2 then y - 1 else y, (153 * ((m + 9) % 12) + 2) / 5 + d - 1)
  {
  }

  /** Day `doy` of a March-based year, counted from the epoch and converted back. */
  lemma YearRoundTrip(y: int, doy: int)
    requires 0 <= doy <= 365 && (doy == 365 ==> IsLeapYear(y + 1))
    ensures CivilFromDays(DaysOfYear(y, doy)) == CivilOfYear(y, doy)
  {
    var era := y / 400;
    var yoe := y - era * 400;
    if doy == 365 {
      LeapInEra(era, yoe + 1);
    }
    var doe := yoe * 365 + yoe / 4 - yoe / 100 + doy;
    EraSplit(yoe, doe, doy);
    EraOfDay(DaysOfYear(y, doy), era, doe);
  }

  /** The civil date of the day number of a date is that date. */
  lemma CivilRoundTrip(y: int, m: int, d: int)
    requires 1 <= m <= 12 && 1 <= d <= DaysInMonth(y, m)
    ensures CivilFromDays(DaysFromCivil(y, m, d)) == Date(y, m, d)
  {
    var y' := if m <= 2 then y - 1 else y;
    var doy := (153 * ((m + 9) % 12) + 2) / 5 + d - 1;
    MonthDayOfYear(y, m, d, y', doy);
    YearRoundTrip(y', doy);
    DaysFromCivilOfYear(y, m, d);
  }

  /** A century, a four-year cycle and a year of it make a year of the era, and the
      divisions by 4 and by 100 take it apart again. */
  lemma PartsOfYear(c: int, q: int, yr: int)
    requires 0 <= c < 4 && 0 <= q < 25 && 0 <= yr < 4
    ensures var yoe := 100 * c + 4 * q + yr;
            yoe / 4 == 25 * c + q && yoe % 4 == yr && yoe / 100 == c && yoe % 100 == 4 * q + yr
  {
  }

  /** The day of the era is rebuilt from its year and the day of that year, and day 365
      occurs only in a year followed by a leap February. */
  lemma YearOfEraInverse(doe: int)
    requires 0 <= doe < 146097
    ensures var yd := YearOfEra(doe);
            && doe == yd.0 * 365 + yd.0 / 4 - yd.0 / 100 + yd.1
            && (yd.1 == 365 ==> IsLeapYear(yd.0 + 1))
  {
    var c := if doe / 36524 < 3 then doe / 36524 else 3;
    var rc := doe - 36524 * c;
    var q := rc / 1461;
    var rq := rc - 1461 * q;
    var yr := if rq / 365 < 3 then rq / 365 else 3;
    assert 0 <= rc <= 36524 && (c < 3 ==> rc < 36524);
    assert 0 <= q < 25 && 0 <= rq < 1461;
    PartsOfYear(c, q, yr);
    if rq - 365 * yr == 365 {
      LeapAtCycleEnd(c, q, rc);
    }
  }

  /** Day 365 of a year ends a four-year cycle, whose next year is a leap year: at the end
      of a century only when that century ends the era. */
  lemma LeapAtCycleEnd(c: int, q: int, rc: int)
    requires 0 <= c < 4 && 0 <= q < 25 && rc == 1461 * q + 1460
    requires c < 3 ==> rc < 36524
    ensures IsLeapYear(100 * c + 4 * q + 3 + 1)
  {
    var y1 := 100 * c + 4 * q + 4;
    assert y1 == 4 * (25 * c + q + 1);
    if q == 24 {
      assert c == 3 && y1 == 400;
    } else {
      assert y1 == 100 * c + 4 * (q + 1) && 0 < 4 * (q + 1) < 100;
      assert y1 % 100 == 4 * (q + 1);
    }
  }

  /** The month and day read from a day of the March-based year, and the day rebuilt from them. */
  lemma DayOfYearArith(doy: int, leap: bool)
    requires 0 <= doy <= 365 && (doy == 365 ==> leap)
    ensures var mp := (5 * doy + 2) / 153;
            var d := doy - (153 * mp + 2) / 5 + 1;
            var m := if mp < 10 then mp + 3 else mp - 9;
            && 1 <= m <= 12 && 1 <= d <= MonthLength(m, leap)
            && (153 * ((m + 9) % 12) + 2) / 5 + d - 1 == doy
  {
    var mp := (5 * doy + 2) / 153;
    assert 0 <= mp < 12;
    var m := if mp < 10 then mp + 3 else mp - 9;
    MonthIndex(m, leap);
    MonthStartFormula(mp);
    DayInMonthOf(doy);
    MonthStartFormula((m + 9) % 12);
  }

  /** The date of a day of the March-based year exists, and its day number is that day. */
  lemma CivilOfYearInverse(y: int, doy: int)
    requires 0 <= doy <= 365 && (doy == 365 ==> IsLeapYear(y + 1))
    ensures var date := CivilOfYear(y, doy);
            && date.day <= DaysInMonth(date.year, date.month)
            && DaysFromCivil(date.year, date.month, date.day) == DaysOfYear(y, doy)
  {
    CivilOfYearFields(y, doy);
    var date := CivilOfYear(y, doy);
    DaysFromCivilOfYear(date.year, date.month, date.day);
  }

  /** The fields of the date of a day of the March-based year: a day within its month,
      the year after `y` for January and February, and the day of the year rebuilt. */
  lemma CivilOfYearFields(y: int, doy: int)
    requires 0 <= doy <= 365 && (doy == 365 ==> IsLeapYear(y + 1))
    ensures var date := CivilOfYear(y, doy);
            && date.day <= DaysInMonth(date.year, date.month)
            && (if date.month <= 2 then date.year - 1 else date.year) == y
            && (153 * ((date.month + 9) % 12) + 2) / 5 + date.day - 1 == doy
  {
    DayOfYearArith(doy, IsLeapYear(y + 1));
  }

  /** The day number of day `doy` of year `yoe` of an era. */
  lemma DaysOfEraYear(era: int, yoe: int, doy: int)
    requires 0 <= yoe < 400
    ensures DaysOfYear(era * 400 + yoe, doy) == era * 146097 + yoe * 365 + yoe / 4 - yoe / 100 + doy - 719468
  {
    assert (era * 400 + yoe) / 400 == era;
  }

  /** The civil date of a day exists: its day is within the length of its month. */
  lemma CivilDateExists(z: int)
    ensures CivilFromDays(z).day <= DaysInMonth(CivilFromDays(z).year, CivilFromDays(z).month)
  {
    var era := (z + 719468) / 146097;
    var doe := z + 719468 - era * 146097;
    EraOfDay(z, era, doe);
    CivilOfEraDay(era, doe);
  }

  /** The day number of the civil date of a day is that day. */
  lemma DaysRoundTrip(z: int)
    ensures var date := CivilFromDays(z);
            DaysFromCivil(date.year, date.month, date.day) == z
  {
    var era := (z + 719468) / 146097;
    var doe := z + 719468 - era * 146097;
    EraOfDay(z, era, doe);
    CivilOfEraDay(era, doe);
  }

  /** The date of day `doe` of an era exists, and its day number is that day. */
  lemma CivilOfEraDay(era: int, doe: int)
    requires 0 <= doe < 146097
    ensures var date := CivilOfYear(era * 400 + YearOfEra(doe).0, YearOfEra(doe).1);
            && date.day <= DaysInMonth(date.year, date.month)
            && DaysFromCivil(date.year, date.month, date.day) == era * 146097 + doe - 719468
  {
    YearOfEraInverse(doe);
    CivilOfEraYear(era, YearOfEra(doe).0, YearOfEra(doe).1);
  }

  /** The date of day `doy` of year `yoe` of an era exists, and its day number counts the
      eras, the years of the era with their leap days, and the day of the year. */
  lemma CivilOfEraYear(era: int, yoe: int, doy: int)
    requires 0 <= yoe < 400 && 0 <= doy <= 365 && (doy == 365 ==> IsLeapYear(yoe + 1))
    ensures var date := CivilOfYear(era * 400 + yoe, doy);
            && date.day <= DaysInMonth(date.year, date.month)
            && DaysFromCivil(date.year, date.month, date.day)
               == era * 146097 + yoe * 365 + yoe / 4 - yoe / 100 + doy - 719468
  {
    if doy == 365 {
      LeapInEra(era, yoe + 1);
    }
    CivilOfYearInverse(era * 400 + yoe, doy);
    DaysOfEraYear(era, yoe, doy);
  }

  /** The instant `k` whole days after the epoch plus `r` milliseconds into that day. */
  lemma DayAndTime(k: int, r: int)
    requires 0 <= r < MsPerDay
    ensures DayNumber(k * MsPerDay + r) == k && TimeOfDay(k * MsPerDay + r) == r
  {
  }

  /** Adding months to an instant on date y-m-d lands on the same day of the target month,
      or on its last day when that month is shorter, at the same time of day. */
  lemma AddMonthsCivil(t: Instant, n: int, y2: int, m2: int)
    requires 1 <= m2 <= 12
    requires DateOf(t).year * 12 + (DateOf(t).month - 1) + n == y2 * 12 + (m2 - 1)
    ensures DateOf(AddMonths(t, n))
            == Date(y2, m2, if DateOf(t).day < DaysInMonth(y2, m2) then DateOf(t).day else DaysInMonth(y2, m2))
    ensures TimeOfDay(AddMonths(t, n)) == TimeOfDay(t)
  {
    AddMonthsDate(t, n, y2, m2);
    var d := if DateOf(t).day < DaysInMonth(y2, m2) then DateOf(t).day else DaysInMonth(y2, m2);
    DayAndTime(DaysFromCivil(y2, m2, d), TimeOfDay(t));
    CivilRoundTrip(y2, m2, d);
  }

  /** A valid strict reading falls on the date it names at the time it names; 24:00 is
      the first instant of the next day. */
  lemma FromCivilDate(day: int, month: int, year: int, hour: int, minute: int)
    requires FromCivil(day, month, year, hour, minute).Valid?
    ensures var t := FromCivil(day, month, year, hour, minute).ms;
            if hour < 24 then
              DateOf(t) == Date(year, month, day) && TimeOfDay(t) == hour * MsPerHour + minute * MsPerMinute
            else
              DayNumber(t) == DaysFromCivil(year, month, day) + 1 && TimeOfDay(t) == 0
  {
    var k := DaysFromCivil(year, month, day);
    if hour < 24 {
      DayAndTime(k, hour * MsPerHour + minute * MsPerMinute);
      CivilRoundTrip(year, month, day);
    } else {
      DayAndTime(k + 1, 0);
    }
  }
}
