/**
 The proleptic Gregorian calendar of sections 21.4.1 and 21.4.3.4 of ECMA-262:
 days counted from 1970-01-01, months from 0, dates from 1. All divisions here
 are by positive constants, where Dafny's `/` and `%` are the floor operations.
 */
module Calendar {
  predicate Leap(year: int) {
    year % 4 == 0 && (year % 100 != 0 || year % 400 == 0)
  }

  function DayFromYear(year: int): int {
    365 * (year - 1970) + (year - 1969) / 4 - (year - 1901) / 100 + (year - 1601) / 400
  }

  function DaysInYear(year: int): int {
    if Leap(year) then 366 else 365
  }

  /** Days before month `month` (0 to 11) in the year. */
  function DaysBefore(year: int, month: int): int
    requires 0 <= month <= 11
  {
    if month <= 1 then 31 * month
    else [59, 90, 120, 151, 181, 212, 243, 273, 304, 334][month - 2] + if Leap(year) then 1 else 0
  }

  function DaysInMonth(year: int, month: int): (days: int)
    requires 0 <= month <= 11
    ensures 28 <= days <= 31
  {
    if month == 1 then (if Leap(year) then 29 else 28)
    else [31, 28, 31, 30, 31, 30, 31, 31, 30, 31, 30, 31][month]
  }

  /** MakeDay: a month outside 0 to 11 carries into the year, any date is counted on from the first. */
  function MakeDay(year: int, month: int, date: int): int {
    var y := year + month / 12;
    DayFromYear(y) + DaysBefore(y, month % 12) + date - 1
  }

  lemma YearLength(year: int)
    ensures DayFromYear(year + 1) == DayFromYear(year) + DaysInYear(year)
  {
    Quarter(year - 1969, 4);
    Quarter(year - 1901, 100);
    Quarter(year - 1601, 400);
  }

  lemma Quarter(n: int, d: nat)
    requires d == 4 || d == 100 || d == 400
    ensures (n + 1) / d == n / d + if (n + 1) % d == 0 then 1 else 0
  {
  }

  lemma {:induction false} YearsGrow(a: int, b: int)
    requires a <= b
    ensures DayFromYear(b) - DayFromYear(a) >= 365 * (b - a)
    decreases b - a
  {
    hide DayFromYear;
    if a < b {
      YearsGrow(a, b - 1);
      YearLength(b - 1);
    }
  }

  // ---------- reading a day back ----------

  ghost function Distance(year: int, day: int): nat {
    if day < DayFromYear(year) then DayFromYear(year) - day
    else if day >= DayFromYear(year + 1) then day - DayFromYear(year + 1) + 1
    else 0
  }

  lemma SearchStep(guess: int, day: int)
    ensures day < DayFromYear(guess) ==> Distance(guess - 1, day) < Distance(guess, day)
    ensures day >= DayFromYear(guess + 1) ==> Distance(guess + 1, day) < Distance(guess, day)
  {
    hide DayFromYear;
    YearLength(guess);
    YearLength(guess - 1);
    YearLength(guess + 1);
  }

  /** The largest year that starts no later than the day, sought from a first guess. */
  function YearFrom(guess: int, day: int): (year: int)
    ensures DayFromYear(year) <= day < DayFromYear(year + 1)
    decreases Distance(guess, day)
  {
    SearchStep(guess, day);
    if day < DayFromYear(guess) then YearFrom(guess - 1, day)
    else if day >= DayFromYear(guess + 1) then YearFrom(guess + 1, day)
    else guess
  }

  function YearFromDay(day: int): (year: int)
    ensures DayFromYear(year) <= day < DayFromYear(year + 1)
  {
    YearFrom(1970, day)
  }

  lemma YearIsUnique(year: int, day: int)
    requires DayFromYear(year) <= day < DayFromYear(year + 1)
    ensures YearFromDay(day) == year
  {
    hide DayFromYear, YearFrom;
    var y := YearFromDay(day);
    if y < year {
      YearsGrow(y + 1, year);
    } else if year < y {
      YearsGrow(year + 1, y);
    }
  }

  /** The month a day of the year falls in. */
  function MonthWithin(year: int, n: int): (month: int)
    requires 0 <= n < DaysInYear(year)
    ensures 0 <= month <= 11
    ensures DaysBefore(year, month) <= n < DaysBefore(year, month) + DaysInMonth(year, month)
  {
    if n < DaysBefore(year, 1) then 0
    else if n < DaysBefore(year, 2) then 1
    else if n < DaysBefore(year, 3) then 2
    else if n < DaysBefore(year, 4) then 3
    else if n < DaysBefore(year, 5) then 4
    else if n < DaysBefore(year, 6) then 5
    else if n < DaysBefore(year, 7) then 6
    else if n < DaysBefore(year, 8) then 7
    else if n < DaysBefore(year, 9) then 8
    else if n < DaysBefore(year, 10) then 9
    else if n < DaysBefore(year, 11) then 10
    else 11
  }

  function MonthFromDay(day: int): (month: int)
    ensures 0 <= month <= 11
  {
    var year := YearFromDay(day);
    YearLength(year);
    MonthWithin(year, day - DayFromYear(year))
  }

  function DateFromDay(day: int): (date: int)
    ensures 1 <= date <= DaysInMonth(YearFromDay(day), MonthFromDay(day)) <= 31
  {
    day - DayFromYear(YearFromDay(day)) - DaysBefore(YearFromDay(day), MonthFromDay(day)) + 1
  }

  /** A date that exists: month 1 to 12, day 1 to the month's length. */
  predicate CivilDate(year: int, month: int, day: int) {
    1 <= month <= 12 && 1 <= day <= DaysInMonth(year, month - 1)
  }

  lemma MonthsTileTheYear(year: int, a: int, b: int)
    requires 0 <= a <= 11 && 0 <= b <= 11
    ensures a < b ==> DaysBefore(year, a) + DaysInMonth(year, a) <= DaysBefore(year, b)
    ensures DaysBefore(year, a) + DaysInMonth(year, a) <= DaysInYear(year)
    ensures DaysBefore(year, a) >= 0
  {
  }

  /** Civil date to day number and back: every existing date of every year survives. */
  lemma CivilRoundTrip(year: int, month: int, day: int)
    requires CivilDate(year, month, day)
    ensures var n := MakeDay(year, month - 1, day);
            YearFromDay(n) == year && MonthFromDay(n) == month - 1 && DateFromDay(n) == day
  {
    hide DayFromYear, DaysBefore, DaysInMonth, YearFromDay, MonthWithin, Leap;
    var n := MakeDay(year, month - 1, day);
    assert (month - 1) / 12 == 0 && (month - 1) % 12 == month - 1;
    MonthsTileTheYear(year, month - 1, 0);
    YearLength(year);
    YearIsUnique(year, n);
    var m := MonthFromDay(n);
    assert m == MonthWithin(year, n - DayFromYear(year));
    MonthsTileTheYear(year, m, month - 1);
    MonthsTileTheYear(year, month - 1, m);
  }

  /** Day number to civil date and back, for every day. */
  lemma DayRoundTrip(n: int)
    ensures CivilDate(YearFromDay(n), MonthFromDay(n) + 1, DateFromDay(n))
    ensures MakeDay(YearFromDay(n), MonthFromDay(n), DateFromDay(n)) == n
  {
    hide DayFromYear, DaysBefore, DaysInMonth, YearFromDay, MonthWithin, Leap;
    var year := YearFromDay(n);
    YearLength(year);
    assert MonthFromDay(n) == MonthWithin(year, n - DayFromYear(year));
    assert MonthFromDay(n) / 12 == 0 && MonthFromDay(n) % 12 == MonthFromDay(n);
  }

  // ---------- Date.UTC ----------

  /** MakeFullYear: two-digit years mean the twentieth century. */
  function FullYear(year: int): int {
    if 0 <= year <= 99 then 1900 + year else year
  }

  const MS_PER_DAY := 86_400_000

  function TimeOfDay(hour: int, minute: int, second: int, ms: int): int {
    ((hour * 60 + minute) * 60 + second) * 1000 + ms
  }

  function DateUtc(year: int, month: int, day: int, hour: int, minute: int, second: int, ms: int): int {
    MakeDay(FullYear(year), month, day) * MS_PER_DAY + TimeOfDay(hour, minute, second, ms)
  }

  /** The program's check: build the date, read its fields back, compare. */
  predicate ValidCalendarDate(year: int, month: int, day: int) {
    var n := DateUtc(year, month - 1, day, 0, 0, 0, 0) / MS_PER_DAY;
    YearFromDay(n) == year && MonthFromDay(n) == month - 1 && DateFromDay(n) == day
  }

  /** For four-digit years and two-digit months and days the check accepts exactly the existing dates of year 100 on. */
  lemma ValidCalendarDateExactly(year: int, month: int, day: int)
    requires 0 <= year <= 9999 && 0 <= month <= 99 && 0 <= day <= 99
    ensures ValidCalendarDate(year, month, day) <==> year >= 100 && CivilDate(year, month, day)
  {
    hide DayFromYear, DaysBefore, DaysInMonth, YearFromDay, MonthFromDay, DateFromDay;
    var n := MakeDay(FullYear(year), month - 1, day);
    assert DateUtc(year, month - 1, day, 0, 0, 0, 0) / MS_PER_DAY == n;
    DayRoundTrip(n);
    if CivilDate(year, month, day) {
      if year >= 100 {
        CivilRoundTrip(year, month, day);
      } else {
        NotBeforeItsYear(1900 + year, month, day);
      }
    }
  }

  lemma NotBeforeItsYear(year: int, month: int, day: int)
    requires 1 <= month <= 12 && day >= 1
    ensures YearFromDay(MakeDay(year, month - 1, day)) >= year
  {
    hide DayFromYear, DaysBefore, YearFromDay;
    var n := MakeDay(year, month - 1, day);
    assert (month - 1) / 12 == 0 && (month - 1) % 12 == month - 1;
    MonthsTileTheYear(year, month - 1, 0);
    var y := YearFromDay(n);
    if y < year {
      YearsGrow(y + 1, year);
    }
  }

  // ---------- counting from the epoch ----------

  /** The Gregorian rule, said for one year and one month. */
  function LengthOfYear(year: int): int {
    if year % 400 == 0 then 366 else if year % 100 == 0 then 365 else if year % 4 == 0 then 366 else 365
  }

  function LengthOfMonth(year: int, month: int): int {
    if month == 4 || month == 6 || month == 9 || month == 11 then 30
    else if month == 2 then LengthOfYear(year) - 337
    else 31
  }

  /** The signed count of days from 1970-01-01 to the first day of the year. */
  function DaysToYear(year: int): int
    decreases if year >= 1970 then year - 1970 else 1970 - year
  {
    if year == 1970 then 0
    else if year > 1970 then DaysToYear(year - 1) + LengthOfYear(year - 1)
    else DaysToYear(year + 1) - LengthOfYear(year)
  }

  /** The days of the year before the month. */
  function DaysToMonth(year: int, month: int): int
    requires 1 <= month <= 12
    decreases month
  {
    if month == 1 then 0 else DaysToMonth(year, month - 1) + LengthOfMonth(year, month - 1)
  }

  lemma FourCenturies(k: int)
    ensures (400 * k) % 100 == 0
  {
    assert 400 * k == 100 * (4 * k);
  }

  lemma OneCentury(k: int)
    ensures (100 * k) % 4 == 0
  {
    assert 100 * k == 4 * (25 * k);
  }

  lemma LeapYearsAreLong(year: int)
    ensures LengthOfYear(year) == if Leap(year) then 366 else 365
  {
    FourCenturies(year / 400);
    OneCentury(year / 100);
  }

  lemma SameLengths(year: int, month: int)
    requires 1 <= month <= 12
    ensures DaysInYear(year) == LengthOfYear(year) && DaysInMonth(year, month - 1) == LengthOfMonth(year, month)
  {
    hide Leap, LengthOfYear;
    LeapYearsAreLong(year);
  }

  lemma EpochYear()
    ensures DayFromYear(1970) == 0
  {
  }

  lemma {:induction false} YearsCounted(year: int)
    ensures DayFromYear(year) == DaysToYear(year)
    decreases if year >= 1970 then year - 1970 else 1970 - year
  {
    hide DayFromYear, LengthOfYear, Leap;
    EpochYear();
    if year > 1970 {
      YearsCounted(year - 1);
      YearLength(year - 1);
      SameLengths(year - 1, 1);
    } else if year < 1970 {
      YearsCounted(year + 1);
      YearLength(year);
      SameLengths(year, 1);
    }
  }

  lemma MonthsMeet(year: int, month: int)
    requires 1 <= month <= 11
    ensures DaysBefore(year, month) == DaysBefore(year, month - 1) + DaysInMonth(year, month - 1)
  {
    hide Leap;
  }

  lemma {:induction false} MonthsCounted(year: int, month: int)
    requires 1 <= month <= 12
    ensures DaysBefore(year, month - 1) == DaysToMonth(year, month)
    decreases month
  {
    hide DaysInMonth, LengthOfMonth, DaysBefore;
    if month > 1 {
      MonthsCounted(year, month - 1);
      MonthsMeet(year, month - 1);
      SameLengths(year, month - 1);
    } else {
      FirstMonth(year);
    }
  }

  lemma FirstMonth(year: int)
    ensures DaysBefore(year, 0) == 0
  {
  }

  /** The day number of an existing date is the signed count of days from 1970-01-01, year by year and month by month. */
  lemma DayNumberCounts(year: int, month: int, day: int)
    requires CivilDate(year, month, day)
    ensures MakeDay(year, month - 1, day) == DaysToYear(year) + DaysToMonth(year, month) + day - 1
    ensures 1 <= day <= LengthOfMonth(year, month)
  {
    hide DayFromYear, DaysBefore, DaysInMonth, LengthOfMonth;
    assert (month - 1) / 12 == 0 && (month - 1) % 12 == month - 1;
    YearsCounted(year);
    MonthsCounted(year, month);
    SameLengths(year, month);
  }

  /** `Date.UTC` counts milliseconds from 1970-01-01T00:00Z, and reads the years 0 to 99 as 1900 to 1999. */
  lemma DateUtcCounts(year: int, month: int, day: int, hour: int, minute: int, second: int, ms: int)
    requires var y := if 0 <= year <= 99 then 1900 + year else year; CivilDate(y, month, day)
    ensures var y := if 0 <= year <= 99 then 1900 + year else year;
            DateUtc(year, month - 1, day, hour, minute, second, ms) ==
            (DaysToYear(y) + DaysToMonth(y, month) + day - 1) * 86_400_000
            + hour * 3_600_000 + minute * 60_000 + second * 1000 + ms
  {
    hide MakeDay, DaysToYear, DaysToMonth;
    DayNumberCounts(FullYear(year), month, day);
  }

  lemma EpochIsZero()
    ensures DateUtc(1970, 0, 1, 0, 0, 0, 0) == 0
  {
    hide DayFromYear, MakeDay;
    DateUtcCounts(1970, 1, 1, 0, 0, 0, 0);
  }
}
