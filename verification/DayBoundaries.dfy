/** The first and last instant of a calendar day of the system time zone, and ranges of days and months. */
module DayBoundaries {
  import opened Options
  import opened Decimals
  import opened Calendar
  import opened SystemTime

  /** The shape /^\d{4}-\d{2}-\d{2}$/. */
  predicate KeyShape(text: string) {
    && |text| == 10 && text[4] == '-' && text[7] == '-'
    && AllDigits(text[..4]) && AllDigits(text[5..7]) && AllDigits(text[8..])
  }

  function KeyYear(text: string): nat
    requires KeyShape(text)
  {
    ValueOf(text[..4])
  }

  function KeyMonth(text: string): nat
    requires KeyShape(text)
  {
    ValueOf(text[5..7])
  }

  function KeyDay(text: string): nat
    requires KeyShape(text)
  {
    ValueOf(text[8..])
  }

  function DateText(year: nat, month: nat, day: nat): string {
    Decimal(year) + "-" + PadStart(Decimal(month), 2) + "-" + PadStart(Decimal(day), 2)
  }

  /** `systemDateKey`: the year is printed without padding. */
  function SystemDateKey(z: Zone, t: int): string {
    var day := LocalDay(z, t);
    DateText(ShownYear(YearFromDay(day)), MonthFromDay(day) + 1, DateFromDay(day))
  }

  function BoundaryTarget(year: int, month: int, day: int, endOfDay: bool): int {
    if endOfDay then DateUtc(year, month - 1, day, 23, 59, 59, 999) else DateUtc(year, month - 1, day, 0, 0, 0, 0)
  }

  function DayBoundary(z: Zone, text: string, endOfDay: bool): Option<int> {
    if !KeyShape(text) then None
    else if !ValidCalendarDate(KeyYear(text), KeyMonth(text), KeyDay(text)) then None
    else
      var target := BoundaryTarget(KeyYear(text), KeyMonth(text), KeyDay(text), endOfDay);
      var t := Settle(z, target, if endOfDay then 999 else 0, target, MAX_ROUNDS);
      if SystemDateKey(z, t) == text then Some(t) else None
  }

  /** A range filter; an absent bound stands for a date that did not parse. */
  datatype Range = Range(gte: Option<int>, lte: Option<int>)

  method SystemDateRange(z: Zone, fromDate: string, toDate: string) returns (range: Option<Range>)
    ensures range == DateRange(z, fromDate, toDate)
    ensures range.None? <==> DayBoundary(z, fromDate, false).None? && DayBoundary(z, toDate, true).None?
    ensures range.Some? ==>
              range.value.gte == DayBoundary(z, fromDate, false) && range.value.lte == DayBoundary(z, toDate, true)
  {
    var filled := Range(None, None);
    var start := DayBoundary(z, fromDate, false);
    var end := DayBoundary(z, toDate, true);
    if start.Some? { filled := filled.(gte := start); }
    if end.Some? { filled := filled.(lte := end); }
    range := if filled.gte.Some? || filled.lte.Some? then Some(filled) else None;
  }

  function DateRange(z: Zone, fromDate: string, toDate: string): Option<Range> {
    var r := Range(DayBoundary(z, fromDate, false), DayBoundary(z, toDate, true));
    if r == Range(None, None) then None else Some(r)
  }

  function MonthDateRange(z: Zone, year: nat, month: nat): Option<Range> {
    if year == 0 || month == 0 then None else
      var lastDay := DateFromDay(MakeDay(FullYear(year), month, 0));
      DateRange(z, DateText(year, month, 1), DateText(year, month, lastDay))
  }

  // ---------- keys ----------

  lemma {:induction false} DigitsBound(s: string)
    requires AllDigits(s)
    ensures |s| == 2 ==> ValueOf(s) <= 99
    ensures |s| == 4 ==> ValueOf(s) <= 9999 && (s[0] != '0' <==> ValueOf(s) >= 1000)
  {
    if |s| == 2 {
      var c := s[..1];
      assert c[..0] == "" && s[..|s| - 1] == c;
      assert ValueOf(c) == (s[0] - '0') as int;
      assert ValueOf(s) == 10 * ValueOf(c) + (s[1] - '0') as int;
    } else if |s| == 4 {
      var a, b, c := s[..3], s[..2], s[..1];
      assert a[..2] == b && b[..1] == c && c[..0] == "";
      assert ValueOf(c) == (s[0] - '0') as int;
      assert ValueOf(b) == 10 * ValueOf(c) + (s[1] - '0') as int;
      assert ValueOf(a) == 10 * ValueOf(b) + (s[2] - '0') as int;
    }
  }

  lemma TwoDigits(n: nat)
    requires n <= 99
    ensures |PadStart(Decimal(n), 2)| == 2 && ValueOf(PadStart(Decimal(n), 2)) == n
  {
    DecimalDenotes(n);
    PaddingDenotes(Decimal(n), 2);
    if n >= 10 {
      assert Decimal(n) == [Digit(n / 10)] + [Digit(n % 10)];
    }
  }

  lemma FourDigits(n: nat)
    requires 1000 <= n <= 9999
    ensures |Decimal(n)| == 4 && ValueOf(Decimal(n)) == n
  {
    DecimalDenotes(n);
    assert |Decimal(n)| == |Decimal(n / 10)| + 1;
    assert |Decimal(n / 10)| == |Decimal(n / 100)| + 1;
    assert |Decimal(n / 100)| == |Decimal(n / 1000)| + 1;
  }

  /** Four-digit years: a key that prints a date reads back as that date. */
  lemma KeyReadsBack(year: nat, month: nat, day: nat)
    requires 1000 <= year <= 9999 && month <= 99 && day <= 99
    ensures var text := DateText(year, month, day);
            KeyShape(text) && KeyYear(text) == year && KeyMonth(text) == month && KeyDay(text) == day
  {
    hide Decimal, PadStart, ValueOf;
    var text := DateText(year, month, day);
    FourDigits(year);
    TwoDigits(month);
    TwoDigits(day);
    assert text[..4] == Decimal(year);
    assert text[5..7] == PadStart(Decimal(month), 2);
    assert text[8..] == PadStart(Decimal(day), 2);
  }

  /** If a printed date has the shape of a key, its fields are the key's and its year has four digits. */
  lemma PrintedKey(text: string, year: nat, month: nat, day: nat)
    requires KeyShape(text) && text == DateText(year, month, day) && year >= 1 && month <= 99 && day <= 99
    ensures 1000 <= year <= 9999 && KeyYear(text) == year && KeyMonth(text) == month && KeyDay(text) == day
  {
    hide Decimal, PadStart, ValueOf;
    TwoDigits(month);
    TwoDigits(day);
    assert |Decimal(year)| == 4;
    assert text[..4] == Decimal(year);
    assert text[5..7] == PadStart(Decimal(month), 2);
    assert text[8..] == PadStart(Decimal(day), 2);
    DecimalDenotes(year);
    DigitsBound(Decimal(year));
  }

  /** A key with a four-digit year is the printing of its own fields. */
  lemma KeyIsItsFields(text: string)
    requires KeyShape(text) && KeyYear(text) >= 1000
    ensures text == DateText(KeyYear(text), KeyMonth(text), KeyDay(text))
    ensures KeyMonth(text) <= 99 && KeyDay(text) <= 99 && KeyYear(text) <= 9999
  {
    hide Decimal, ValueOf, PadStart;
    DigitsBound(text[..4]);
    DigitsBound(text[5..7]);
    DigitsBound(text[8..]);
    NumeralIsItsValue(text[..4]);
    TwoDigitText(text[5..7]);
    TwoDigitText(text[8..]);
    assert text == text[..4] + "-" + text[5..7] + "-" + text[8..];
  }

  lemma TwoDigitText(s: string)
    requires |s| == 2 && AllDigits(s)
    ensures PadStart(Decimal(ValueOf(s)), 2) == s
  {
    assert s[..1][..0] == "" && s == [s[0]] + [s[1]];
    if s[0] == '0' {
      var v := ValueOf(s);
      assert s[..|s| - 1] == s[..1];
      assert ValueOf(s[..1]) == 0;
      assert v == 10 * ValueOf(s[..1]) + (s[1] - '0') as int;
      assert Decimal(v) == [s[1]];
      assert PadStart("0" + [s[1]], 2) == "0" + [s[1]];
    } else {
      NumeralIsItsValue(s);
    }
  }

  // ---------- soundness in any zone ----------

  lemma TargetDay(year: int, month: int, day: int, endOfDay: bool)
    requires year >= 1000 && CivilDate(year, month, day)
    ensures var target := BoundaryTarget(year, month, day, endOfDay);
            && target / MS_PER_DAY == MakeDay(year, month - 1, day) && Modern(target)
            && target % 1000 == if endOfDay then 999 else 0
  {
    hide MakeDay, DayFromYear, YearFromDay, MonthFromDay, DateFromDay;
    CivilRoundTrip(year, month, day);
    YearsGrow(100, year);
  }

  /**
   Whatever the zone does, gaps and overlaps included, and whether or not the
   four rounds settled: a boundary that is returned lies on the requested date,
   which exists and has a year of at least 1000.
   */
  lemma BoundaryLiesOnItsDate(z: Zone, text: string, endOfDay: bool)
    requires Bounded(z)
    ensures DayBoundary(z, text, endOfDay).Some? ==>
              && KeyYear(text) >= 1000 && CivilDate(KeyYear(text), KeyMonth(text), KeyDay(text))
              && LocalDay(z, DayBoundary(z, text, endOfDay).value) == MakeDay(KeyYear(text), KeyMonth(text) - 1, KeyDay(text))
  {
    hide MakeDay, YearFromDay, MonthFromDay, DateFromDay, Settle, DateText, ValidCalendarDate, Modern, LocalDay, ValueOf;
    if DayBoundary(z, text, endOfDay).Some? {
      var t := DayBoundary(z, text, endOfDay).value;
      var n := LocalDay(z, t);
      var year, month, day := KeyYear(text), KeyMonth(text), KeyDay(text);
      DayRoundTrip(n);
      PrintedKey(text, ShownYear(YearFromDay(n)), MonthFromDay(n) + 1, DateFromDay(n));
      ValidCalendarDateExactly(year, month, day);
      TargetDay(year, month, day, endOfDay);
      var target := BoundaryTarget(year, month, day, endOfDay);
      LoopResultExactly(z, target);
      var k: nat :| FirstHit(z, target, 0, MAX_ROUNDS, k) && t == Try(z, target, k);
      TryIsNear(z, target, k);
    }
  }

  // ---------- where the offset does not change ----------

  /** The key has the right shape and names an existing date of year 1000 or later. */
  predicate NamesDate(text: string) {
    KeyShape(text) && KeyYear(text) >= 1000 && CivilDate(KeyYear(text), KeyMonth(text), KeyDay(text))
  }

  lemma BoundaryInstant(z: Zone, year: nat, month: nat, day: nat, endOfDay: bool)
    requires Bounded(z) && 1000 <= year <= 9999 && CivilDate(year, month, day)
    requires Consistent(z, BoundaryTarget(year, month, day, endOfDay))
    ensures var target := BoundaryTarget(year, month, day, endOfDay);
            DayBoundary(z, DateText(year, month, day), endOfDay) == Some(target - 1000 * z(target))
  {
    hide MakeDay, YearFromDay, MonthFromDay, DateFromDay, Settle, DateText, ValidCalendarDate, Modern, ValueOf, DaysInMonth;
    KeyReadsBack(year, month, day);
    ValidCalendarDateExactly(year, month, day);
    TargetDay(year, month, day, endOfDay);
    TwoRoundsSettleExactly(z, BoundaryTarget(year, month, day, endOfDay), MAX_ROUNDS);
    CivilRoundTrip(year, month, day);
  }

  /** Where the offset is consistent a text has a boundary exactly when it names an existing date of year 1000 or later. */
  lemma BoundaryExistsExactly(z: Zone, text: string, endOfDay: bool)
    requires Bounded(z)
    requires NamesDate(text) ==> Consistent(z, BoundaryTarget(KeyYear(text), KeyMonth(text), KeyDay(text), endOfDay))
    ensures DayBoundary(z, text, endOfDay).Some? <==> NamesDate(text)
  {
    hide CivilDate, DateText, ValueOf, Settle, ValidCalendarDate, SystemDateKey, BoundaryTarget, Consistent;
    if DayBoundary(z, text, endOfDay).Some? {
      BoundaryLiesOnItsDate(z, text, endOfDay);
    } else if NamesDate(text) {
      KeyIsItsFields(text);
      BoundaryInstant(z, KeyYear(text), KeyMonth(text), KeyDay(text), endOfDay);
    }
  }

  /** With this offset the n-th local day starts here. */
  function DayOpens(offset: int, n: int): int {
    n * MS_PER_DAY - 1000 * offset
  }

  /** In a stretch of one offset that holds local day n, both boundaries of the day are its first and last millisecond. */
  lemma SteadyDay(z: Zone, offset: int, first: int, last: int, year: nat, month: nat, day: nat)
    requires Bounded(z) && Steady(z, first, last, offset) && 1000 <= year <= 9999 && CivilDate(year, month, day)
    requires first <= MakeDay(year, month - 1, day) <= last
    ensures var n := MakeDay(year, month - 1, day);
            && DayBoundary(z, DateText(year, month, day), false) == Some(DayOpens(offset, n))
            && DayBoundary(z, DateText(year, month, day), true) == Some(DayOpens(offset, n + 1) - 1)
  {
    hide MakeDay, DayBoundary, DateText, CivilDate, Modern;
    var n := MakeDay(year, month - 1, day);
    TargetDay(year, month, day, false);
    TargetDay(year, month, day, true);
    TargetTime(year, month, day);
    assert -86400 < z(n * MS_PER_DAY) < 86400;
    BoundaryInstant(z, year, month, day, false);
    BoundaryInstant(z, year, month, day, true);
  }

  lemma TargetTime(year: int, month: int, day: int)
    requires year >= 100
    ensures BoundaryTarget(year, month, day, false) == MakeDay(year, month - 1, day) * MS_PER_DAY
    ensures BoundaryTarget(year, month, day, true) == (MakeDay(year, month - 1, day) + 1) * MS_PER_DAY - 1
  {
    hide MakeDay;
  }

  /** Around a stretch of one offset, the local days of that stretch are exactly the instants between their openings. */
  lemma SteadyLocalDay(z: Zone, offset: int, first: int, last: int, a: int, b: int, t: int)
    requires Bounded(z) && Steady(z, first, last, offset) && first <= a <= b <= last
    ensures DayOpens(offset, a) <= t <= DayOpens(offset, b + 1) - 1 <==> a <= LocalDay(z, t) <= b
  {
    assert -86400 < z(t) < 86400 && -86400 < z(a * MS_PER_DAY) < 86400;
    assert z(a * MS_PER_DAY) == offset;
  }

  /** The calendar's successor of a date. */
  function NextDate(year: int, month: int, day: int): (int, int, int)
    requires CivilDate(year, month, day)
  {
    if day < DaysInMonth(year, month - 1) then (year, month, day + 1)
    else if month < 12 then (year, month + 1, 1)
    else (year + 1, 1, 1)
  }

  lemma NextDateIsNextDay(year: int, month: int, day: int)
    requires CivilDate(year, month, day)
    ensures var (y, m, d) := NextDate(year, month, day);
            CivilDate(y, m, d) && MakeDay(y, m - 1, d) == MakeDay(year, month - 1, day) + 1
  {
    hide DayFromYear, Leap;
    YearLength(year);
    assert (month - 1) / 12 == 0 && (month - 1) % 12 == month - 1;
    if month < 12 {
      assert month / 12 == 0 && month % 12 == month;
    }
  }

  /** One millisecond after the end of a day is the start of the next date, across months, years and leap days, exactly when both have the same offset. */
  lemma DaysMeet(z: Zone, year: nat, month: nat, day: nat)
    requires Bounded(z) && 1000 <= year <= 9999 && CivilDate(year, month, day)
    requires NextDate(year, month, day).0 <= 9999
    requires Consistent(z, BoundaryTarget(year, month, day, true))
    requires var (y, m, d) := NextDate(year, month, day); Consistent(z, BoundaryTarget(y, m, d, false))
    ensures var (y, m, d) := NextDate(year, month, day);
            y >= 0 && m >= 0 && d >= 0 &&
            var end, start := DayBoundary(z, DateText(year, month, day), true), DayBoundary(z, DateText(y, m, d), false);
            && end.Some? && start.Some?
            && (end.value + 1 == start.value <==>
                  z(BoundaryTarget(year, month, day, true)) == z(BoundaryTarget(y, m, d, false)))
  {
    hide MakeDay, DayBoundary, DateText, DaysInMonth;
    NextDateIsNextDay(year, month, day);
    var (y, m, d) := NextDate(year, month, day);
    BoundaryInstant(z, year, month, day, true);
    BoundaryInstant(z, y, m, d, false);
    TargetTime(year, month, day);
    TargetTime(y, m, d);
  }

  /** Where the offset does not change around a date, an instant lies between its boundaries exactly when that date is its local date. */
  lemma InstantLiesInItsDayOnly(z: Zone, offset: int, year: nat, month: nat, day: nat, t: int)
    requires Bounded(z) && 1000 <= year <= 9999 && CivilDate(year, month, day)
    requires Steady(z, MakeDay(year, month - 1, day), MakeDay(year, month - 1, day), offset)
    ensures var start, end := DayBoundary(z, DateText(year, month, day), false), DayBoundary(z, DateText(year, month, day), true);
            && start.Some? && end.Some?
            && (start.value <= t <= end.value <==>
                  YearFromDay(LocalDay(z, t)) == year && MonthFromDay(LocalDay(z, t)) + 1 == month
                  && DateFromDay(LocalDay(z, t)) == day)
  {
    hide MakeDay, YearFromDay, MonthFromDay, DateFromDay, DayBoundary, DateText, DaysInMonth, LocalDay, Steady;
    var n := MakeDay(year, month - 1, day);
    SteadyDay(z, offset, n, n, year, month, day);
    SteadyLocalDay(z, offset, n, n, n, n, t);
    CivilRoundTrip(year, month, day);
    DayRoundTrip(LocalDay(z, t));
  }

  lemma LastOfMonth(year: nat, month: nat)
    requires 100 <= year && 1 <= month <= 12
    ensures DateFromDay(MakeDay(FullYear(year), month, 0)) == DaysInMonth(year, month - 1)
  {
    hide DayFromYear, YearFromDay, MonthFromDay, DateFromDay, Leap;
    var last := DaysInMonth(year, month - 1);
    NextDateIsNextDay(year, month, last);
    CivilRoundTrip(year, month, last);
    if month == 12 {
      assert MakeDay(year, 12, 0) == MakeDay(year + 1, 0, 1) - 1;
    }
  }

  /** Where the offset does not change around a month, the range of the month is the union of its days. */
  lemma MonthIsTheUnionOfItsDays(z: Zone, offset: int, year: nat, month: nat, t: int)
    requires Bounded(z) && 1000 <= year <= 9999 && 1 <= month <= 12
    requires Steady(z, MakeDay(year, month - 1, 1), MakeDay(year, month - 1, DaysInMonth(year, month - 1)), offset)
    ensures var range := MonthDateRange(z, year, month);
            && range.Some? && range.value.gte.Some? && range.value.lte.Some?
            && (range.value.gte.value <= t <= range.value.lte.value <==>
                  exists day: nat :: CivilDate(year, month, day) && LocalDay(z, t) == MakeDay(year, month - 1, day))
  {
    hide DayFromYear, YearFromDay, MonthFromDay, DateFromDay, DayBoundary, DateText, DaysBefore, LocalDay, Steady, DayOpens;
    var last := DaysInMonth(year, month - 1);
    LastOfMonth(year, month);
    var first := MakeDay(year, month - 1, 1);
    var final := MakeDay(year, month - 1, last);
    assert final == first + last - 1;
    SteadyDay(z, offset, first, final, year, month, 1);
    SteadyDay(z, offset, first, final, year, month, last);
    SteadyLocalDay(z, offset, first, final, first, final, t);
    var n := LocalDay(z, t);
    if first <= n <= final {
      var day: nat := n - first + 1;
      assert CivilDate(year, month, day) && n == MakeDay(year, month - 1, day);
    }
  }

  /** In a zone two hours ahead of UTC, 1 January 2026 starts at 2025-12-31T22:00Z. */
  lemma NewYearOfTripoli(z: Zone)
    requires forall t :: z(t) == 7200
    ensures DayBoundary(z, "2026-01-01", false) == Some(1_767_218_400_000)
    ensures DayBoundary(z, "2026-01-01", true) == Some(1_767_218_400_000 + 86_399_999)
  {
    hide MakeDay, DayBoundary, DateText;
    NewYearText();
    assert MakeDay(2026, 0, 1) == 20_454 by { NewYearDay(); }
    SteadyDay(z, 7200, 20_454, 20_454, 2026, 1, 1);
  }

  lemma NewYearText()
    ensures DateText(2026, 1, 1) == "2026-01-01"
  {
    assert Decimal(2026) == Decimal(202) + "6" && Decimal(202) == Decimal(20) + "2" && Decimal(20) == Decimal(2) + "0";
    assert PadStart("1", 2) == PadStart("0" + "1", 2);
  }

  lemma NewYearDay()
    ensures MakeDay(2026, 0, 1) == 20_454
  {
  }
}
