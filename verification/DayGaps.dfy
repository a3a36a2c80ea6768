/** What the wall-clock loop and the day boundaries do at a gap, where the zone's clock jumps forward. */
module DayGaps {
  import opened Options
  import opened Decimals
  import opened Calendar
  import opened SystemTime
  import opened DayBoundaries

  /** Around the instant the offset changes once, there, from one value to a larger one. */
  ghost predicate JumpsForward(z: Zone, at: int, before: int, after: int) {
    && before < after
    && forall t :: at - 2 * MS_PER_DAY < t < at + 2 * MS_PER_DAY ==> z(t) == if t < at then before else after
  }

  /** The wall times the clock skips. */
  predicate InGap(at: int, before: int, after: int, target: int) {
    at + 1000 * before <= target < at + 1000 * after
  }

  /** The tries alternate between the two offsets and never show the target. */
  lemma TriesAlternate(z: Zone, at: int, before: int, after: int, target: int)
    requires Bounded(z) && JumpsForward(z, at, before, after) && InGap(at, before, after, target)
    ensures var first, second := if at <= target then after else before, if at <= target then before else after;
            && z(target) == first
            && Try(z, target, 1) == Try(z, target, 3) == target - 1000 * first
            && Try(z, target, 2) == Try(z, target, 4) == target - 1000 * second
            && z(target - 1000 * first) == second && z(target - 1000 * second) == first
  {
    assert -86400 < z(at - 1) < 86400 && -86400 < z(at) < 86400;
    assert z(at - 1) == before && z(at) == after;
    assert z(target) == if at <= target then after else before;
    assert z(target - 1000 * after) == before;
    assert z(target - 1000 * before) == after;
    assert Try(z, target, 0) == target;
    assert Try(z, target, 1) == target - 1000 * z(Try(z, target, 0));
    assert Try(z, target, 2) == target - 1000 * z(Try(z, target, 1));
    assert Try(z, target, 3) == target - 1000 * z(Try(z, target, 2));
    assert Try(z, target, 4) == target - 1000 * z(Try(z, target, 3));
  }

  /**
   In a gap the four rounds run out: the result lies past the gap if the zone already has its new offset at the target
   read as UTC, and before the gap otherwise. It misses the target by exactly the width of the gap.
   */
  lemma GapResult(z: Zone, at: int, before: int, after: int, target: int)
    requires Bounded(z) && Modern(target)
    requires JumpsForward(z, at, before, after) && InGap(at, before, after, target)
    ensures var result := Settle(z, target, target % 1000, target, MAX_ROUNDS);
            if at <= target
            then result == target - 1000 * before >= at && Local(z, result) == target + 1000 * (after - before)
            else result == target - 1000 * after < at && Local(z, result) == target - 1000 * (after - before)
  {
    hide Settle, Modern, Try, JumpsForward;
    TriesAlternate(z, at, before, after, target);
    LoopResultExactly(z, target);
    var n: nat :| FirstHit(z, target, 0, MAX_ROUNDS, n)
                  && Settle(z, target, target % 1000, target, MAX_ROUNDS) == Try(z, target, n);
    NoTryHits(z, at, before, after, target);
    assert n == MAX_ROUNDS;
  }

  lemma NoTryHits(z: Zone, at: int, before: int, after: int, target: int)
    requires Bounded(z) && JumpsForward(z, at, before, after) && InGap(at, before, after, target)
    ensures forall k: nat :: k <= 3 ==> !Hits(z, target, k)
  {
    hide JumpsForward;
    TriesAlternate(z, at, before, after, target);
    assert before < after by { Forward(z, at, before, after); }
    forall k: nat | k <= 3
      ensures !Hits(z, target, k)
    {
      hide Try;
      TryZero(z, target);
      assert k == 0 || k == 1 || k == 2 || k == 3;
      GapHasNoInstant(z, at, before, after, target, Try(z, target, k));
    }
  }

  lemma TryZero(z: Zone, target: int)
    ensures Try(z, target, 0) == target
  {
  }

  lemma Forward(z: Zone, at: int, before: int, after: int)
    requires JumpsForward(z, at, before, after)
    ensures before < after
  {
  }

  /** A skipped wall time is shown at no instant. */
  lemma GapHasNoInstant(z: Zone, at: int, before: int, after: int, target: int, t: int)
    requires Bounded(z) && JumpsForward(z, at, before, after) && InGap(at, before, after, target)
    ensures Local(z, t) != target
  {
    assert -86400 < z(t) < 86400;
    assert -86400 < z(at - 1) < 86400 && -86400 < z(at) < 86400;
    assert z(at - 1) == before && z(at) == after;
  }

  /**
   A day boundary in a gap of less than a day: of a day's start and end only the one that the loop moves into the day
   is returned, and the other one is dropped.
   */
  lemma BoundaryInGap(z: Zone, at: int, before: int, after: int, year: nat, month: nat, day: nat, endOfDay: bool)
    requires Bounded(z) && 1000 <= year <= 9999 && CivilDate(year, month, day)
    requires JumpsForward(z, at, before, after) && after - before < 86400
    requires InGap(at, before, after, BoundaryTarget(year, month, day, endOfDay))
    ensures var target := BoundaryTarget(year, month, day, endOfDay);
            DayBoundary(z, DateText(year, month, day), endOfDay) ==
            if endOfDay == (at <= target) then None
            else Some(if endOfDay then target - 1000 * after else target - 1000 * before)
  {
    hide MakeDay, YearFromDay, MonthFromDay, DateFromDay, Settle, DateText, ValidCalendarDate, Modern, ValueOf, DaysInMonth;
    hide JumpsForward;
    var target := BoundaryTarget(year, month, day, endOfDay);
    var n := MakeDay(year, month - 1, day);
    TargetDay(year, month, day, endOfDay);
    TargetTime(year, month, day);
    GapResult(z, at, before, after, target);
    Forward(z, at, before, after);
    var t := Settle(z, target, target % 1000, target, MAX_ROUNDS);
    DayShown(n, endOfDay, Local(z, t) - target);
    KeyReadsBack(year, month, day);
    ValidCalendarDateExactly(year, month, day);
    if endOfDay == (at <= target) {
      OtherDayIsDropped(z, year, month, day, endOfDay, t);
    } else {
      CivilRoundTrip(year, month, day);
    }
  }

  lemma DayShown(n: int, endOfDay: bool, shift: int)
    requires -MS_PER_DAY < shift < MS_PER_DAY && shift != 0
    ensures var target := if endOfDay then (n + 1) * MS_PER_DAY - 1 else n * MS_PER_DAY;
            (target + shift) / MS_PER_DAY ==
            if endOfDay then (if shift > 0 then n + 1 else n) else (if shift > 0 then n else n - 1)
  {
  }

  lemma OtherDayIsDropped(z: Zone, year: nat, month: nat, day: nat, endOfDay: bool, t: int)
    requires Bounded(z) && 1000 <= year <= 9999 && CivilDate(year, month, day)
    requires t == Settle(z, BoundaryTarget(year, month, day, endOfDay), if endOfDay then 999 else 0,
                         BoundaryTarget(year, month, day, endOfDay), MAX_ROUNDS)
    requires LocalDay(z, t) != MakeDay(year, month - 1, day)
    ensures DayBoundary(z, DateText(year, month, day), endOfDay) == None
  {
    hide MakeDay, YearFromDay, MonthFromDay, DateFromDay, Settle, DateText, ValidCalendarDate, ValueOf, DaysInMonth, LocalDay;
    KeyReadsBack(year, month, day);
    if DayBoundary(z, DateText(year, month, day), endOfDay).Some? {
      BoundaryLiesOnItsDate(z, DateText(year, month, day), endOfDay);
    }
  }

  // ---------- the first instant of a date ----------

  ghost predicate FirstOfDay(z: Zone, n: int, t: int) {
    LocalDay(z, t) == n && forall u :: LocalDay(z, u) == n ==> t <= u
  }

  /**
   When midnight is skipped, the date begins at the jump. Its start is that first instant exactly when the gap begins at
   midnight; a gap that straddles midnight makes the start too late, so that part of the date lies before it, or drops it.
   */
  lemma StartIsFirstInstantExactly(z: Zone, at: int, before: int, after: int, year: nat, month: nat, day: nat)
    requires Bounded(z) && 1000 <= year <= 9999 && CivilDate(year, month, day)
    requires JumpsForward(z, at, before, after) && after - before < 86400
    requires InGap(at, before, after, BoundaryTarget(year, month, day, false))
    ensures var n, target := MakeDay(year, month - 1, day), BoundaryTarget(year, month, day, false);
            var start := DayBoundary(z, DateText(year, month, day), false);
            && FirstOfDay(z, n, at)
            && (start.Some? ==> at <= start.value && forall t :: at <= t <= start.value ==> LocalDay(z, t) == n)
            && (start == Some(at) <==> at <= target && target == at + 1000 * before)
  {
    hide MakeDay, DateText, DayBoundary, BoundaryTarget;
    var n, target := MakeDay(year, month - 1, day), BoundaryTarget(year, month, day, false);
    BoundaryInGap(z, at, before, after, year, month, day, false);
    TargetTime(year, month, day);
    JumpOpensTheDay(z, at, before, after, n);
  }

  lemma JumpOpensTheDay(z: Zone, at: int, before: int, after: int, n: int)
    requires Bounded(z) && JumpsForward(z, at, before, after) && after - before < 86400
    requires InGap(at, before, after, n * MS_PER_DAY)
    ensures FirstOfDay(z, n, at)
    ensures forall t :: at <= t <= n * MS_PER_DAY - 1000 * before ==> LocalDay(z, t) == n
  {
    assert -86400 < z(at - 1) < 86400 && -86400 < z(at) < 86400;
    assert z(at - 1) == before && z(at) == after;
    forall u | u < at
      ensures LocalDay(z, u) != n
    {
      assert -86400 < z(u) < 86400;
    }
  }
}
