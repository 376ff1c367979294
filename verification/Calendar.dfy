/** Civil dates from Unix timestamps, against the plain calendar: leap years, month lengths,
    and one day after another from Thursday 1 January 1970. */
module Calendar {
  import opened Text

  datatype Date = Date(year: int, month: int, day: int)

  datatype DateTime = DateTime(date: Date, hour: int, minute: int, second: int, weekday: int)

  // ---------- the program's conversion ----------

  /** Days since 1 March of year 0, and the 400-year era they fall in. */
  const EPOCH_SHIFT := 719_468
  const ERA_DAYS := 146_097

  function YearOfEra(dayOfEra: int): int {
    (dayOfEra - dayOfEra / 1_460 + dayOfEra / 36_524 - dayOfEra / 146_096) / 365
  }

  /** Days from the start of an era to the start of one of its March-based years. */
  function YearStart(yearOfEra: int): int {
    365 * yearOfEra + yearOfEra / 4 - yearOfEra / 100
  }

  /** Day and month from the day of a March-based year. */
  function FromDayOfYear(year: int, dayOfYear: int): Date {
    var monthPrime := (5 * dayOfYear + 2) / 153;
    var day := dayOfYear - (153 * monthPrime + 2) / 5 + 1;
    var month := monthPrime + if monthPrime < 10 then 3 else -9;
    Date(year + if month <= 2 then 1 else 0, month, day)
  }

  function DateOfDay(days: int): Date {
    var shifted := days + EPOCH_SHIFT;
    var era := shifted / ERA_DAYS;
    var dayOfEra := shifted - era * ERA_DAYS;
    var yearOfEra := YearOfEra(dayOfEra);
    FromDayOfYear(yearOfEra + era * 400, dayOfEra - YearStart(yearOfEra))
  }

  function WeekdayOfDay(days: int): int {
    (days + 4) % 7
  }

  /** `div_euclid` and `rem_euclid` are Dafny's own operators. */
  function UtcDateTime(unix: int): DateTime {
    var days := unix / 86_400;
    var seconds := unix % 86_400;
    DateTime(DateOfDay(days), seconds / 3_600, (seconds % 3_600) / 60, seconds % 60, WeekdayOfDay(days))
  }

  // ---------- the plain calendar ----------

  predicate Leap(year: int) {
    year % 4 == 0 && (year % 100 != 0 || year % 400 == 0)
  }

  function DaysInMonth(year: int, month: int): int {
    if month == 2 then (if Leap(year) then 29 else 28)
    else if month == 4 || month == 6 || month == 9 || month == 11 then 30
    else 31
  }

  predicate ValidDate(d: Date) {
    1 <= d.month <= 12 && 1 <= d.day <= DaysInMonth(d.year, d.month)
  }

  function NextDay(d: Date): Date {
    if d.day < DaysInMonth(d.year, d.month) then d.(day := d.day + 1)
    else if d.month < 12 then Date(d.year, d.month + 1, 1)
    else Date(d.year + 1, 1, 1)
  }

  const EPOCH := Date(1970, 1, 1)
  const THURSDAY := 4

  // ---------- inside one era ----------

  /** Length of a March-based year: it ends with the February of the next civil year. */
  function YearLength(yearOfEra: int): int {
    if Leap(yearOfEra + 1) then 366 else 365
  }

  lemma YearLengthByParts(century: int, cycle: int, rest: int)
    requires 0 <= century <= 3 && 0 <= cycle <= 24 && 0 <= rest <= 3
    ensures YearLength(100 * century + 4 * cycle + rest) ==
      if rest == 3 && (cycle < 24 || century == 3) then 366 else 365
    ensures YearStart(100 * century + 4 * cycle + rest) == 36_524 * century + 1_461 * cycle + 365 * rest
  {
    var y := 100 * century + 4 * cycle + rest;
    assert y / 4 == 25 * century + cycle && y / 100 == century;
    assert (y + 1) % 4 == (rest + 1) % 4;
    if rest == 3 {
      assert y + 1 == 100 * century + 4 * (cycle + 1);
      assert (y + 1) % 100 == if cycle == 24 then 0 else 4 * (cycle + 1);
      if cycle == 24 {
        assert (y + 1) % 400 == (100 * (century + 1)) % 400;
      }
    }
  }

  /** The division formula finds the year that contains a day. */
  lemma YearContains(century: int, cycle: int, rest: int, day: int)
    requires 0 <= century <= 3 && 0 <= cycle <= 24 && 0 <= rest <= 3
    requires 0 <= day < YearLength(100 * century + 4 * cycle + rest)
    ensures YearOfEra(YearStart(100 * century + 4 * cycle + rest) + day) == 100 * century + 4 * cycle + rest
  {
    hide Leap, YearLength, YearStart;
    YearLengthByParts(century, cycle, rest);
    var d := 36_524 * century + 1_461 * cycle + 365 * rest + day;
    // one leap day too many is taken off late in a four-year cycle
    var extra := if 24 * century + cycle + 365 * rest + day >= 1_460 then 1 else 0;
    assert d / 1_460 == 25 * century + cycle + extra;
    if d == 146_096 {
      assert century == 3;
    } else {
      assert d / 146_096 == 0 && d / 36_524 == century;
    }
    assert d - d / 1_460 + d / 36_524 - d / 146_096 ==
      365 * (100 * century + 4 * cycle + rest) + (day - extra);
    assert 0 <= day - extra <= 364;
  }

  lemma YearStartNext(yearOfEra: int)
    requires 0 <= yearOfEra <= 399
    ensures YearStart(yearOfEra) + YearLength(yearOfEra) ==
      if yearOfEra == 399 then ERA_DAYS else YearStart(yearOfEra + 1)
  {
    var century, cycle, rest := yearOfEra / 100, yearOfEra % 100 / 4, yearOfEra % 4;
    assert yearOfEra == 100 * century + 4 * cycle + rest;
    YearLengthByParts(century, cycle, rest);
    if rest < 3 {
      YearLengthByParts(century, cycle, rest + 1);
    } else if cycle < 24 {
      YearLengthByParts(century, cycle + 1, 0);
      assert yearOfEra + 1 == 100 * century + 4 * (cycle + 1) + 0;
    } else if century < 3 {
      YearLengthByParts(century + 1, 0, 0);
      assert yearOfEra + 1 == 100 * (century + 1) + 4 * 0 + 0;
    }
  }

  /** Every day of an era lies in one of its years, and the formula finds that year. */
  lemma Locate(dayOfEra: int) returns (yearOfEra: int, day: int)
    requires 0 <= dayOfEra < ERA_DAYS
    ensures 0 <= yearOfEra <= 399 && 0 <= day < YearLength(yearOfEra)
    ensures dayOfEra == YearStart(yearOfEra) + day && YearOfEra(dayOfEra) == yearOfEra
  {
    var century := if dayOfEra >= 3 * 36_524 then 3 else dayOfEra / 36_524;
    var inCentury := dayOfEra - 36_524 * century;
    var cycle := if inCentury >= 24 * 1_461 then 24 else inCentury / 1_461;
    var inCycle := inCentury - 1_461 * cycle;
    var rest := if inCycle >= 3 * 365 then 3 else inCycle / 365;
    day := inCycle - 365 * rest;
    yearOfEra := 100 * century + 4 * cycle + rest;
    YearLengthByParts(century, cycle, rest);
    YearContains(century, cycle, rest, day);
  }

  // ---------- months ----------

  /** First day of a March-based month within its year. */
  function FirstDay(m: int): int {
    (153 * m + 2) / 5
  }

  lemma MonthIs(day: int, m: int)
    requires 0 <= m <= 11 && FirstDay(m) <= day < FirstDay(m + 1)
    ensures (5 * day + 2) / 153 == m
  {
  }

  lemma MonthOfDay(day: int) returns (m: int)
    requires 0 <= day < 366
    ensures 0 <= m <= 11 && m == (5 * day + 2) / 153 && FirstDay(m) <= day < FirstDay(m + 1)
  {
    m := (5 * day + 2) / 153;
  }

  predicate InYear(year: int, day: int) {
    0 <= day < if Leap(year + 1) then 366 else 365
  }

  /** Civil year and month of a March-based month. */
  function CivilYear(year: int, m: int): int {
    if m < 10 then year else year + 1
  }

  function CivilMonth(m: int): int {
    if m < 10 then m + 3 else m - 9
  }

  /** Months but the last have the length of their civil month; the last is cut by February's end. */
  lemma MonthLengths(year: int, m: int)
    requires 0 <= m <= 11
    ensures m < 11 ==> FirstDay(m + 1) - FirstDay(m) == DaysInMonth(CivilYear(year, m), CivilMonth(m))
    ensures m == 11 ==> 365 - FirstDay(m) == 28 && CivilMonth(m) == 2
    ensures FirstDay(0) == 0
  {
  }

  lemma DateInMonth(year: int, day: int, m: int)
    requires 0 <= m <= 11 && FirstDay(m) <= day < FirstDay(m + 1)
    ensures FromDayOfYear(year, day) == Date(CivilYear(year, m), CivilMonth(m), day - FirstDay(m) + 1)
  {
    MonthIs(day, m);
  }

  /** Inside a March-based year the conversion gives valid dates, and stepping the day steps
      the date; its last day is the end of February. */
  lemma YearIsCalendar(year: int, day: int)
    requires InYear(year, day)
    ensures ValidDate(FromDayOfYear(year, day))
    ensures NextDay(FromDayOfYear(year, day)) ==
      if InYear(year, day + 1) then FromDayOfYear(year, day + 1) else FromDayOfYear(year + 1, 0)
  {
    hide FromDayOfYear, Leap;
    var m := MonthOfDay(day);
    MonthLengths(year, m);
    DateInMonth(year, day, m);
    MonthLengths(year + 1, 0);
    if day + 1 < FirstDay(m + 1) && InYear(year, day + 1) {
      DateInMonth(year, day + 1, m);
    } else if m < 11 {
      assert day + 1 == FirstDay(m + 1) && FirstDay(m + 1) < FirstDay(m + 2);
      DateInMonth(year, day + 1, m + 1);
    } else {
      DateInMonth(year + 1, 0, 0);
    }
  }

  // ---------- every day ----------

  lemma LeapOfRemainder(q: int, r: int)
    requires 0 <= r < 400
    ensures Leap(400 * q + r) == Leap(r)
  {
    RemainderOf100(q, r);
    RemainderOf4(q, r);
  }

  lemma RemainderOf100(q: int, r: int)
    ensures (400 * q + r) % 100 == r % 100
  {
    assert 400 * q + r == 100 * (4 * q) + r;
  }

  lemma RemainderOf4(q: int, r: int)
    ensures (400 * q + r) % 4 == r % 4
  {
    assert 400 * q + r == 4 * (100 * q) + r;
  }

  lemma LeapRepeats(year: int, era: int)
    ensures Leap(year + 400 * era) == Leap(year)
  {
    var q := year / 400;
    var r := year % 400;
    assert year == 400 * q + r && year + 400 * era == 400 * (q + era) + r;
    LeapOfRemainder(q, r);
    LeapOfRemainder(q + era, r);
  }

  /** Each day is some day of some March-based year. */
  lemma DayLies(days: int) returns (year: int, day: int)
    ensures InYear(year, day) && DateOfDay(days) == FromDayOfYear(year, day)
    ensures DateOfDay(days + 1) ==
      if InYear(year, day + 1) then FromDayOfYear(year, day + 1) else FromDayOfYear(year + 1, 0)
  {
    hide YearOfEra, YearStart, FromDayOfYear, Leap;
    var shifted := days + EPOCH_SHIFT;
    var era := shifted / ERA_DAYS;
    var dayOfEra := shifted - era * ERA_DAYS;
    var y: int;
    y, day := Locate(dayOfEra);
    year := y + era * 400;
    LeapRepeats(y + 1, era);
    YearStartNext(y);
    if InYear(year, day + 1) {
      DateAt(era, y, day + 1, days + 1);
    } else if y < 399 {
      DateAt(era, y + 1, 0, days + 1);
    } else {
      YearStartZero();
      DateAt(era + 1, 0, 0, days + 1);
    }
  }

  lemma YearStartZero()
    ensures YearStart(0) == 0
  {
  }

  lemma DateAt(era: int, y: int, day: int, days: int)
    requires 0 <= y <= 399 && 0 <= day && (day == 0 || day < YearLength(y))
    requires days + EPOCH_SHIFT == era * ERA_DAYS + YearStart(y) + day
    ensures DateOfDay(days) == FromDayOfYear(y + era * 400, day)
  {
    hide YearOfEra, YearStart, FromDayOfYear, Leap;
    var century, cycle, rest := y / 100, y % 100 / 4, y % 4;
    assert y == 100 * century + 4 * cycle + rest;
    YearContains(century, cycle, rest, day);
    YearLengthByParts(century, cycle, rest);
    var dayOfEra := YearStart(y) + day;
    assert 0 <= dayOfEra < ERA_DAYS;
    assert (era * ERA_DAYS + dayOfEra) / ERA_DAYS == era;
  }

  // ---------- main results ----------

  /** Every day number is a valid date, and the next number is the next day. */
  lemma DaysFollowTheCalendar(days: int)
    ensures ValidDate(DateOfDay(days))
    ensures DateOfDay(days + 1) == NextDay(DateOfDay(days))
    ensures WeekdayOfDay(days + 1) == (WeekdayOfDay(days) + 1) % 7
  {
    hide DateOfDay, FromDayOfYear, NextDay, ValidDate, InYear;
    var year, day := DayLies(days);
    YearIsCalendar(year, day);
  }

  lemma EpochIsThursday()
    ensures DateOfDay(0) == EPOCH && WeekdayOfDay(0) == THURSDAY
  {
  }

  /** Counting days from a date, one at a time. */
  function Advance(d: Date, n: nat): Date {
    if n == 0 then d else NextDay(Advance(d, n - 1))
  }

  lemma {:induction false} AdvanceFrom(days: int, n: nat)
    ensures Advance(DateOfDay(days), n) == DateOfDay(days + n)
  {
    hide DateOfDay;
    if n > 0 {
      AdvanceFrom(days, n - 1);
      DaysFollowTheCalendar(days + n - 1);
    }
  }

  /** The conversion is the inductively counted calendar in both directions: day `n` is `n`
      days after the epoch, and the epoch is `n` days after day `-n`. */
  lemma EqualsCountedCalendar(n: int)
    requires n >= 0
    ensures DateOfDay(n) == Advance(EPOCH, n)
    ensures Advance(DateOfDay(-n), n) == EPOCH
  {
    hide DateOfDay;
    EpochIsThursday();
    AdvanceFrom(0, n);
    AdvanceFrom(-n, n);
  }

  predicate Before(a: Date, b: Date) {
    a.year < b.year || (a.year == b.year && (a.month < b.month || (a.month == b.month && a.day < b.day)))
  }

  /** Later days have later dates, so no two days share one. */
  lemma {:induction false} DatesIncrease(days: int, n: nat)
    requires n > 0
    ensures Before(DateOfDay(days), DateOfDay(days + n))
  {
    hide DateOfDay;
    DaysFollowTheCalendar(days + n - 1);
    if n > 1 {
      DatesIncrease(days, n - 1);
    }
  }

  /** For every 64-bit timestamp: the fields are a valid date and time of day, so the narrowing
      to 8 bits loses nothing; the timestamp is recovered from the day and the time; and no
      intermediate value leaves 64 bits. */
  lemma UtcIsValid(unix: int)
    requires FitsI64(unix)
    ensures var t := UtcDateTime(unix);
      && ValidDate(t.date) && 0 <= t.date.month < 256 && 0 <= t.date.day < 256
      && 0 <= t.hour <= 23 && 0 <= t.minute <= 59 && 0 <= t.second <= 59 && 0 <= t.weekday <= 6
      && unix == (unix / 86_400) * 86_400 + t.hour * 3_600 + t.minute * 60 + t.second
    ensures var shifted := unix / 86_400 + EPOCH_SHIFT;
      && FitsI64(shifted) && FitsI64(shifted / ERA_DAYS * ERA_DAYS)
      && FitsI64(shifted / ERA_DAYS * 400 + 400)
  {
    hide DateOfDay, Leap;
    DaysFollowTheCalendar(unix / 86_400);
  }

  /** One day later is the calendar's next day and weekday at the same time of day. */
  lemma NextDayOfTimestamp(unix: int)
    ensures var t, next := UtcDateTime(unix), UtcDateTime(unix + 86_400);
      && next.date == NextDay(t.date)
      && next.weekday == (t.weekday + 1) % 7
      && next.hour == t.hour && next.minute == t.minute && next.second == t.second
  {
    hide DateOfDay;
    DaysFollowTheCalendar(unix / 86_400);
    assert (unix + 86_400) / 86_400 == unix / 86_400 + 1;
  }

  /** Timestamp 0 is Thursday 1 January 1970 at midnight. */
  lemma TimestampZero()
    ensures UtcDateTime(0) == DateTime(Date(1970, 1, 1), 0, 0, 0, 4)
  {
    hide DateOfDay;
    EpochIsThursday();
  }

  /** The conversion, anchored: `n` days and `s` seconds after the epoch it is the `n`th date
      counted from 1 January 1970, the weekday counted from Thursday, at time of day `s`; and
      from the date `n` days before the epoch, `n` steps lead to that day. */
  lemma TimestampCounts(n: int, s: int)
    requires n >= 0 && 0 <= s < 86_400
    ensures var t := UtcDateTime(86_400 * n + s);
      && t.date == Advance(Date(1970, 1, 1), n)
      && t.weekday == (4 + n) % 7
      && t.hour * 3_600 + t.minute * 60 + t.second == s
      && 0 <= t.hour <= 23 && 0 <= t.minute <= 59 && 0 <= t.second <= 59
    ensures var t := UtcDateTime(-86_400 * n + s);
      && ValidDate(t.date) && Advance(t.date, n) == Date(1970, 1, 1)
      && 0 <= t.weekday <= 6 && (t.weekday + n) % 7 == 4
      && t.hour * 3_600 + t.minute * 60 + t.second == s
      && 0 <= t.hour <= 23 && 0 <= t.minute <= 59 && 0 <= t.second <= 59
  {
    hide DateOfDay, Advance, ValidDate;
    EqualsCountedCalendar(n);
    DaysFollowTheCalendar(-n);
    DayAndTime(n, s);
    DayAndTime(-n, s);
    assert -86_400 * n + s == 86_400 * (-n) + s;
  }

  lemma DayAndTime(days: int, s: int)
    requires 0 <= s < 86_400
    ensures (86_400 * days + s) / 86_400 == days && (86_400 * days + s) % 86_400 == s
  {
  }
}
